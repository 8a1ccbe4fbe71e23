/** Candidate discovery (src/file_list.rs): the folder blacklist, the two
    directory walks of `get_file_list`, and the random pick of one image.

    A directory walk is modelled as the sequence of entries it yields, in the
    order it yields them. `get_file_list` makes two walks: a depth-3 walk of
    the configured path to collect folders (the parameter `tree`), then an
    unbounded walk of the chosen search root (the function `walk`, which gives
    the entries below any root). Random draws are index parameters. */
module FileList {
  import opened Common
  import opened Config

  // ---------------------------------------------------------------------
  // Blacklist predicate (check_black_list)
  // ---------------------------------------------------------------------

  /** Number of bytes `c` takes in UTF-8. */
  function Utf8Width(c: char): nat
  {
    if c as int < 0x80 then 1
    else if c as int < 0x800 then 2
    else if c as int < 0x1_0000 then 3
    else 4
  }

  /** Rust's `String::len`: the length in UTF-8 bytes, not in characters. */
  function ByteLen(s: string): (n: nat)
    ensures |s| <= n <= 4 * |s|
    ensures n == 0 <==> s == []
  {
    if s == [] then 0 else Utf8Width(s[0]) + ByteLen(s[1..])
  }

  /** Rust's `str::contains`: `word` occurs in `name` as a contiguous block. */
  function Contains(name: string, word: string): (r: bool)
    ensures r <==> exists i :: 0 <= i <= |name| && word <= name[i..]
    decreases |name|
  {
    if word <= name then
      assert name[0..] == name;
      true
    else if name == [] then false
    else
      var rest := Contains(name[1..], word);
      ContainsShift(name, word);
      rest
  }

  /** Occurrences in `name[1..]` are the occurrences in `name` past index 0. */
  lemma ContainsShift(name: string, word: string)
    requires name != [] && !(word <= name)
    ensures (exists i :: 0 <= i <= |name| - 1 && word <= name[1..][i..])
        <==> (exists i :: 0 <= i <= |name| && word <= name[i..])
  {
    if i :| 0 <= i <= |name| - 1 && word <= name[1..][i..] {
      assert name[1..][i..] == name[i + 1..];
    }
    if i :| 0 <= i <= |name| && word <= name[i..] {
      assert i != 0;
      assert name[1..][i - 1..] == name[i..];
    }
  }

  /** A blacklist word is only checked when it is longer than two bytes;
      shorter words are skipped with a warning. */
  predicate Checked(word: string)
  {
    ByteLen(word) > 2
  }

  /** The meaning of `check_black_list(name, blacklist) == true`: the name is
      ALLOWED, because no checked word of the blacklist occurs in it. */
  predicate Allowed(name: string, blacklist: seq<string>)
  {
    forall w :: w in blacklist && Checked(w) ==> !Contains(name, w)
  }

  /** check_black_list: walks the blacklist in order and stops at the first
      checked word that occurs in the name. */
  method CheckBlackList(name: string, blackList: seq<string>) returns (allowed: bool)
    ensures allowed == Allowed(name, blackList)
  {
    for k := 0 to |blackList|
      invariant Allowed(name, blackList[..k])
    {
      var word := blackList[k];
      if ByteLen(word) > 2 {
        if Contains(name, word) {
          return false;
        }
      } else {
        // too short to be checked: skipped with a warning
      }
      assert blackList[..k + 1] == blackList[..k] + [word];
    }
    assert blackList[..|blackList|] == blackList;
    return true;
  }

  /** A name is refused exactly when some checked word occurs in it at some index. */
  lemma AllowedMeansNoOccurrence(name: string, blacklist: seq<string>)
    ensures Allowed(name, blacklist)
        <==> !exists k, i :: 0 <= k < |blacklist| && Checked(blacklist[k])
                            && 0 <= i <= |name| && blacklist[k] <= name[i..]
  {
    if !Allowed(name, blacklist) {
      var w :| w in blacklist && Checked(w) && Contains(name, w);
      var k :| 0 <= k < |blacklist| && blacklist[k] == w;
      var i :| 0 <= i <= |name| && w <= name[i..];
      assert Checked(blacklist[k]) && blacklist[k] <= name[i..];
    }
  }

  /** Adding a word of two bytes or fewer anywhere never changes the verdict. */
  lemma ShortWordIgnored(name: string, before: seq<string>, word: string, after: seq<string>)
    requires !Checked(word)
    ensures Allowed(name, before + [word] + after) == Allowed(name, before + after)
  {
    assert forall w :: w in before + [word] + after <==> w in before + after || w == word;
  }

  /** A blacklist of only short words (the empty one included) allows every name. */
  lemma OnlyShortWordsAllowAll(name: string, blacklist: seq<string>)
    requires forall w :: w in blacklist ==> !Checked(w)
    ensures Allowed(name, blacklist)
  {
  }

  /** Any word of three or more characters is checked, whatever its characters. */
  lemma {:induction false} ThreeCharactersChecked(name: string, blacklist: seq<string>, word: string)
    requires word in blacklist && |word| >= 3 && Contains(name, word)
    ensures !Allowed(name, blacklist)
  {
    assert ByteLen(word) >= |word|;
  }

  /** The verdict depends only on which words are listed, not their order or multiplicity. */
  lemma AllowedOrderIndependent(name: string, a: seq<string>, b: seq<string>)
    requires forall w :: w in a <==> w in b
    ensures Allowed(name, a) == Allowed(name, b)
  {
  }

  // ---------------------------------------------------------------------
  // Directory walks (get_file_list and its `searcher` closure)
  // ---------------------------------------------------------------------

  /** One entry yielded by a directory walk. `ext` is the file-name extension,
      absent for names without one. */
  datatype Entry = Entry(path: string, isDir: bool, ext: Option<string>)

  /** A directory of the first walk that `get_file_list` collects. */
  predicate KeptFolder(e: Entry, enableFolderBlacklist: bool, blacklist: seq<string>)
  {
    e.isDir && (!enableFolderBlacklist || Allowed(e.path, blacklist))
  }

  /** The folders the first walk collects, in walk order. */
  function Folders(tree: seq<Entry>, enableFolderBlacklist: bool, blacklist: seq<string>): (r: seq<string>)
    ensures |r| <= |tree|
    ensures forall p :: p in r ==>
              exists e :: e in tree && KeptFolder(e, enableFolderBlacklist, blacklist) && e.path == p
    ensures forall e :: e in tree && KeptFolder(e, enableFolderBlacklist, blacklist) ==> e.path in r
    ensures enableFolderBlacklist ==> forall p :: p in r ==> Allowed(p, blacklist)
  {
    if tree == [] then []
    else
      var last := tree[|tree| - 1];
      var rest := Folders(tree[..|tree| - 1], enableFolderBlacklist, blacklist);
      assert forall e :: e in tree ==> e in tree[..|tree| - 1] || e == last;
      if KeptFolder(last, enableFolderBlacklist, blacklist) then rest + [last.path] else rest
  }

  /** The folders of two consecutive stretches of a walk are the folders of
      the first followed by those of the second: walk order is kept. */
  lemma {:induction false} FoldersConcat(a: seq<Entry>, b: seq<Entry>, enable: bool, blacklist: seq<string>)
    ensures Folders(a + b, enable, blacklist) == Folders(a, enable, blacklist) + Folders(b, enable, blacklist)
    decreases |b|
  {
    if b == [] {
      assert a + b == a;
    } else {
      var b' := b[..|b| - 1];
      assert (a + b)[..|a + b| - 1] == a + b';
      FoldersConcat(a, b', enable, blacklist);
    }
  }

  /** With the folder blacklist disabled, every directory the walk yields is
      collected, whatever the blacklist says. */
  lemma {:induction false} FoldersIgnoreDisabledBlacklist(tree: seq<Entry>, blacklist: seq<string>)
    ensures Folders(tree, false, blacklist) == Folders(tree, false, [])
    decreases |tree|
  {
    if tree != [] {
      FoldersIgnoreDisabledBlacklist(tree[..|tree| - 1], blacklist);
    }
  }

  /** The walk of a directory starts with that directory itself, so unless the
      configured path is itself blacklisted it is always among the folders,
      and the branch that searches the path directly is not taken. */
  lemma RootAmongFolders(path: string, tree: seq<Entry>, enable: bool, blacklist: seq<string>)
    requires tree != [] && tree[0].path == path && tree[0].isDir
    requires enable ==> Allowed(path, blacklist)
    ensures path in Folders(tree, enable, blacklist)
  {
    assert KeptFolder(tree[0], enable, blacklist);
  }

  /** A file the searcher keeps: not a directory, extension exactly `jpg` or
      `png` (case-sensitive). */
  predicate IsImageFile(e: Entry)
  {
    !e.isDir && e.ext.Some? && (e.ext.value == "jpg" || e.ext.value == "png")
  }

  /** The searcher unwraps the extension of every non-directory it meets. */
  predicate ExtensionsPresent(entries: seq<Entry>)
  {
    forall e :: e in entries && !e.isDir ==> e.ext.Some?
  }

  /** The image files of a walk, in walk order. */
  function ImageFiles(entries: seq<Entry>): (r: seq<string>)
    ensures |r| <= |entries|
    ensures forall p :: p in r ==> exists e :: e in entries && IsImageFile(e) && e.path == p
    ensures forall e :: e in entries && IsImageFile(e) ==> e.path in r
  {
    if entries == [] then []
    else
      var last := entries[|entries| - 1];
      var rest := ImageFiles(entries[..|entries| - 1]);
      assert forall e :: e in entries ==> e in entries[..|entries| - 1] || e == last;
      if IsImageFile(last) then rest + [last.path] else rest
  }

  const EmptyListMessage := "File list is empty"

  /** What the searcher returns for a walk: the image files, or an error when
      there are none. */
  function SearchResult(entries: seq<Entry>): (r: Result<seq<string>>)
    ensures r.Err? <==> forall e :: e in entries ==> !IsImageFile(e)
    ensures r.Err? ==> r.msg == EmptyListMessage
    ensures r.Ok? ==> r.value == ImageFiles(entries) && |r.value| > 0
  {
    var files := ImageFiles(entries);
    assert files != [] ==> files[0] in files;
    if |files| < 1 then Err(EmptyListMessage) else Ok(files)
  }

  /** The `searcher` closure: collects the image files of one walk. */
  method Searcher(entries: seq<Entry>) returns (r: Result<seq<string>>)
    requires ExtensionsPresent(entries)
    ensures r == SearchResult(entries)
  {
    var fileList: seq<string> := [];
    for k := 0 to |entries|
      invariant fileList == ImageFiles(entries[..k])
    {
      var entry := entries[k];
      assert entries[..k + 1][..k] == entries[..k];
      if !entry.isDir {
        var ext := entry.ext.value;
        if ext == "jpg" || ext == "png" {
          fileList := fileList + [entry.path];
        }
      }
    }
    assert entries[..|entries|] == entries;
    if |fileList| < 1 {
      return Err(EmptyListMessage);
    }
    return Ok(fileList);
  }

  /** The root of the second walk: the configured path when no folder was
      collected, otherwise the folder drawn at index `pick`. */
  function SearchRoot(path: string, folders: seq<string>, pick: nat): (root: string)
    requires |folders| > 0 ==> pick < |folders|
    ensures folders == [] ==> root == path
    ensures folders != [] ==> root in folders
  {
    if |folders| < 1 then path else folders[pick]
  }

  /** get_file_list: collect the folders of the depth-3 walk `tree` of `path`
      (skipping blacklisted ones when the folder blacklist is enabled), choose
      the search root, and search the unbounded walk `walk(root)` of it. */
  method GetFileList(path: string, config: Config, tree: seq<Entry>, walk: string -> seq<Entry>, pick: nat)
    returns (r: Result<seq<string>>)
    requires var folders := Folders(tree, config.conf.local.enableFolderBlacklist, config.conf.local.blacklistFolders);
             (|folders| > 0 ==> pick < |folders|) && ExtensionsPresent(walk(SearchRoot(path, folders, pick)))
    ensures var folders := Folders(tree, config.conf.local.enableFolderBlacklist, config.conf.local.blacklistFolders);
            r == SearchResult(walk(SearchRoot(path, folders, pick)))
    ensures r.Ok? ==> |r.value| > 0
    ensures r.Err? ==> r.msg == EmptyListMessage
  {
    var enable := config.conf.local.enableFolderBlacklist;
    var blacklist := config.conf.local.blacklistFolders;
    var folders: seq<string> := [];
    for k := 0 to |tree|
      invariant folders == Folders(tree[..k], enable, blacklist)
    {
      var entry := tree[k];
      assert tree[..k + 1][..k] == tree[..k];
      if entry.isDir {
        if enable {
          var allowed := CheckBlackList(entry.path, blacklist);
          if !allowed {
            continue;
          }
        }
        folders := folders + [entry.path];
      }
    }
    assert tree[..|tree|] == tree;
    if |folders| < 1 {
      r := Searcher(walk(path));
    } else {
      r := Searcher(walk(folders[pick]));
    }
  }

  /** Every path of a successful result names an image file of the search
      root's walk, and every image file of that walk is in the result. */
  lemma FileListIsTheImages(path: string, config: Config, tree: seq<Entry>, walk: string -> seq<Entry>, pick: nat)
    requires var folders := Folders(tree, config.conf.local.enableFolderBlacklist, config.conf.local.blacklistFolders);
             |folders| > 0 ==> pick < |folders|
    ensures var folders := Folders(tree, config.conf.local.enableFolderBlacklist, config.conf.local.blacklistFolders);
            var entries := walk(SearchRoot(path, folders, pick));
            var r := SearchResult(entries);
            r.Ok? ==>
              (forall p :: p in r.value ==> exists e :: e in entries && IsImageFile(e) && e.path == p) &&
              (forall e :: e in entries && IsImageFile(e) ==> e.path in r.value)
  {
  }

  // ---------------------------------------------------------------------
  // Random image (get_rand_image)
  // ---------------------------------------------------------------------

  /** get_rand_image: the empty path for an empty list, the only element of a
      one-element list, and otherwise the element at the drawn index. */
  function RandImage(list: seq<string>, pick: nat): (r: string)
    requires |list| > 1 ==> pick < |list|
    ensures list == [] ==> r == ""
    ensures |list| == 1 ==> r == list[0]
    ensures list != [] ==> r in list
  {
    if |list| > 1 then list[pick]
    else if |list| == 1 then list[0]
    else ""
  }
}
