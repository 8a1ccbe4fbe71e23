/** The configuration record read from the YAML file (src/config.rs), one
    datatype per Rust struct. Rust's `f32` fields are modelled as exact reals. */
module Config {
  import opened Common

  datatype OnlineCnf = OnlineCnf(urls: seq<string>, tls: bool)

  datatype LocalCnf = LocalCnf(
    directories: seq<string>,
    usePortrait: bool,
    landscapeCoef: real,
    setQualityControl: bool,
    minMps: real,
    maxMps: real,
    enableFileBlacklist: bool,
    enableFolderBlacklist: bool,
    blacklistFiles: seq<string>,
    blacklistFolders: seq<string>)

  datatype GlobCnf = GlobCnf(interval: u32, useDirectory: bool, useUrls: bool, wallmode: string)

  datatype Cnf = Cnf(online: OnlineCnf, local: LocalCnf, global: GlobCnf)

  datatype Config = Config(conf: Cnf)
}
