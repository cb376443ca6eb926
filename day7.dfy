/** Day 7: a file-system tree rebuilt from a terminal session of `cd` and
 *  `ls` commands, then measured. A directory is a value holding its
 *  subdirectories and files; the current directory is the path of
 *  subdirectory indices leading to it from the root. */
module Day7 {
  import opened Common
  import opened Text

  datatype Line = Cd(target: string) | Ls | FileLine(size: nat, name: string) | DirLine(name: string)

  datatype File = File(name: string, size: nat)

  datatype Dir = Dir(name: string, subdirs: seq<Dir>, files: seq<File>)

  /** `Line::from_str`, tested in the source's order: a "$ cd" line names its
   *  third word, a "$ ls" line is a listing, a "dir" line names its second
   *  word, and any other line is a usize size followed by a name. A missing
   *  word panics; a size that is not a usize is an error. */
  function ParseLine(s: string): (r: Result<Line>)
    ensures var w := Split(s, " ");
      StartsWith(s, "$ cd") ==>
        (|w| >= 3 ==> r == Ok(Cd(w[2]))) && (|w| < 3 ==> r == Err(Panic))
    ensures !StartsWith(s, "$ cd") && StartsWith(s, "$ ls") ==> r == Ok(Ls)
    ensures var w := Split(s, " ");
      !StartsWith(s, "$ cd") && !StartsWith(s, "$ ls") && StartsWith(s, "dir") ==>
        (|w| >= 2 ==> r == Ok(DirLine(w[1]))) && (|w| < 2 ==> r == Err(Panic))
    ensures var w := Split(s, " ");
      !StartsWith(s, "$ cd") && !StartsWith(s, "$ ls") && !StartsWith(s, "dir") ==>
        (ParseUnsigned(w[0], U64_MAX).None? ==> r == Err(Error)) &&
        (ParseUnsigned(w[0], U64_MAX).Some? && |w| < 2 ==> r == Err(Panic)) &&
        (ParseUnsigned(w[0], U64_MAX).Some? && |w| >= 2 ==> r == Ok(FileLine(ParseUnsigned(w[0], U64_MAX).value, w[1])))
    ensures r == Err(Error) <==> (!StartsWith(s, "$ cd") && !StartsWith(s, "$ ls") && !StartsWith(s, "dir") &&
                                  ParseUnsigned(Split(s, " ")[0], U64_MAX).None?)
  {
    var words := Split(s, " ");
    if StartsWith(s, "$ cd") then
      if |words| < 3 then Err(Panic) else Ok(Cd(words[2]))
    else if StartsWith(s, "$ ls") then Ok(Ls)
    else if StartsWith(s, "dir") then
      if |words| < 2 then Err(Panic) else Ok(DirLine(words[1]))
    else match ParseUnsigned(words[0], U64_MAX)
      case None => Err(Error)
      case Some(size) => if |words| < 2 then Err(Panic) else Ok(FileLine(size, words[1]))
  }

  /** The terminal text of a line, as the session prints it. */
  function FormatLine(l: Line): string
  {
    match l
    case Cd(target) => Join(["$", "cd", target], " ")
    case Ls => "$ ls"
    case DirLine(name) => Join(["dir", name], " ")
    case FileLine(size, name) => Join([NatToString(size), name], " ")
  }

  lemma ParseFormattedCd(target: string)
    requires NoChar(target, ' ')
    ensures ParseLine(FormatLine(Cd(target))) == Ok(Cd(target))
  {
    var s := FormatLine(Cd(target));
    SplitJoin(["$", "cd", target], ' ');
    assert ["$", "cd", target][1..] == ["cd", target];
    assert ["cd", target][1..] == [target];
    assert Join(["cd", target], " ") == "cd " + target;
    assert s == "$ " + ("cd " + target);
    assert s[..4] == "$ cd";
  }

  lemma ParseFormattedDir(name: string)
    requires NoChar(name, ' ')
    ensures ParseLine(FormatLine(DirLine(name))) == Ok(DirLine(name))
  {
    var s := FormatLine(DirLine(name));
    SplitJoin(["dir", name], ' ');
    assert s == "dir " + name;
    assert s[..3] == "dir";
    assert s[0] != "$ cd"[0];
  }

  lemma ParseFormattedFile(size: nat, name: string)
    requires NoChar(name, ' ') && size <= U64_MAX
    ensures ParseLine(FormatLine(FileLine(size, name))) == Ok(FileLine(size, name))
  {
    var s := FormatLine(FileLine(size, name));
    var digits := NatToString(size);
    assert NoChar(digits, ' ') by {
      forall i | 0 <= i < |digits| ensures digits[i] != ' ' {
        assert IsDigit(digits[i]);
      }
    }
    SplitJoin([digits, name], ' ');
    ParseNatToString(size, U64_MAX);
    assert s == digits + " " + name;
    assert IsDigit(s[0]);
  }

  /** Parsing the text of a line gives it back, for names without spaces and
   *  sizes that fit a usize. */
  lemma ParseFormattedLine(l: Line)
    requires l.Cd? ==> NoChar(l.target, ' ')
    requires l.DirLine? || l.FileLine? ==> NoChar(l.name, ' ')
    requires l.FileLine? ==> l.size <= U64_MAX
    ensures ParseLine(FormatLine(l)) == Ok(l)
  {
    match l
    case Cd(target) => ParseFormattedCd(target);
    case Ls =>
      var s := FormatLine(l);
      assert s[..4] == "$ ls";
      assert s[3] != "$ cd"[3];
    case DirLine(name) => ParseFormattedDir(name);
    case FileLine(size, name) => ParseFormattedFile(size, name);
  }

  /** `TryInto<Dir>`: only a `dir` line converts, to an empty directory. */
  function ToDir(line: Line): (r: Result<Dir>)
    ensures r.Ok? <==> line.DirLine?
    ensures r.Ok? ==> r.value == Dir(line.name, [], [])
  {
    match line
    case DirLine(name) => Ok(Dir(name, [], []))
    case _ => Err(Error)
  }

  /** `TryInto<File>`: only a file line converts. */
  function ToFile(line: Line): (r: Result<File>)
    ensures r.Ok? <==> line.FileLine?
    ensures r.Ok? ==> r.value == File(line.name, line.size)
  {
    match line
    case FileLine(size, name) => Ok(File(name, size))
    case _ => Err(Error)
  }

  function FileTotal(files: seq<File>): nat
  {
    if files == [] then 0 else files[0].size + FileTotal(files[1..])
  }

  /** `Dir::size`: the files of the directory plus the sizes of its subdirectories. */
  function Size(d: Dir): nat
    decreases d, 1
  {
    SubSizes(d.subdirs) + FileTotal(d.files)
  }

  function SubSizes(ds: seq<Dir>): nat
    decreases ds, 0
  {
    if ds == [] then 0 else Size(ds[0]) + SubSizes(ds[1..])
  }

  /** Every file of the subtree, the directory's own first. */
  function AllFiles(d: Dir): seq<File>
    decreases d, 1
  {
    d.files + SubFiles(d.subdirs)
  }

  function SubFiles(ds: seq<Dir>): seq<File>
    decreases ds, 0
  {
    if ds == [] then [] else AllFiles(ds[0]) + SubFiles(ds[1..])
  }

  lemma {:induction false} FileTotalAppend(a: seq<File>, b: seq<File>)
    ensures FileTotal(a + b) == FileTotal(a) + FileTotal(b)
  {
    if a == [] {
      assert a + b == b;
    } else {
      assert (a + b)[1..] == a[1..] + b;
      FileTotalAppend(a[1..], b);
    }
  }

  /** A directory's size is the total size of every file in its subtree. */
  lemma {:induction false} SizeIsFileTotal(d: Dir)
    ensures Size(d) == FileTotal(AllFiles(d))
    decreases d, 1
  {
    SubSizesIsFileTotal(d.subdirs);
    FileTotalAppend(d.files, SubFiles(d.subdirs));
  }

  lemma {:induction false} SubSizesIsFileTotal(ds: seq<Dir>)
    ensures SubSizes(ds) == FileTotal(SubFiles(ds))
    decreases ds, 0
  {
    if ds != [] {
      SizeIsFileTotal(ds[0]);
      SubSizesIsFileTotal(ds[1..]);
      FileTotalAppend(AllFiles(ds[0]), SubFiles(ds[1..]));
    }
  }

  /** `Dir::all_dirs`: the subdirectories, then the `all_dirs` of each in turn. */
  function AllDirs(d: Dir): seq<Dir>
    decreases d, 1
  {
    d.subdirs + SubAllDirs(d.subdirs)
  }

  function SubAllDirs(ds: seq<Dir>): seq<Dir>
    decreases ds, 0
  {
    if ds == [] then [] else AllDirs(ds[0]) + SubAllDirs(ds[1..])
  }

  /** The number of directories in a tree, itself included. */
  function DirCount(d: Dir): nat
    decreases d, 1
  {
    1 + SubDirCount(d.subdirs)
  }

  function SubDirCount(ds: seq<Dir>): nat
    decreases ds, 0
  {
    if ds == [] then 0 else DirCount(ds[0]) + SubDirCount(ds[1..])
  }

  /** `all_dirs` lists as many directories as the tree holds besides its root. */
  lemma {:induction false} AllDirsCount(d: Dir)
    ensures |AllDirs(d)| == DirCount(d) - 1
    decreases d, 1
  {
    SubAllDirsCount(d.subdirs);
  }

  lemma {:induction false} SubAllDirsCount(ds: seq<Dir>)
    ensures |SubAllDirs(ds)| + |ds| == SubDirCount(ds)
    decreases ds, 0
  {
    if ds != [] {
      AllDirsCount(ds[0]);
      SubAllDirsCount(ds[1..]);
    }
  }

  /** A path of subdirectory indices that exists in the tree. */
  predicate ValidPath(d: Dir, path: seq<nat>)
    decreases |path|
  {
    path == [] || (path[0] < |d.subdirs| && ValidPath(d.subdirs[path[0]], path[1..]))
  }

  /** The directory a path leads to. */
  function At(d: Dir, path: seq<nat>): Dir
    requires ValidPath(d, path)
    decreases |path|
  {
    if path == [] then d else At(d.subdirs[path[0]], path[1..])
  }

  lemma {:induction false} SubAllDirsHas(ds: seq<Dir>, i: nat, x: Dir)
    requires i < |ds| && x in AllDirs(ds[i])
    ensures x in SubAllDirs(ds)
    decreases i
  {
    if i > 0 {
      SubAllDirsHas(ds[1..], i - 1, x);
    }
  }

  /** Every directory a non-empty path leads to is listed by `all_dirs`. */
  lemma {:induction false} PathInAllDirs(d: Dir, path: seq<nat>)
    requires ValidPath(d, path) && |path| > 0
    ensures At(d, path) in AllDirs(d)
    decreases |path|
  {
    var c := d.subdirs[path[0]];
    if |path| > 1 {
      PathInAllDirs(c, path[1..]);
      SubAllDirsHas(d.subdirs, path[0], At(d, path));
    }
  }

  lemma {:induction false} SubAllDirsFrom(ds: seq<Dir>, x: Dir) returns (i: nat)
    requires x in SubAllDirs(ds)
    ensures i < |ds| && x in AllDirs(ds[i])
    decreases ds
  {
    if x in AllDirs(ds[0]) {
      i := 0;
    } else {
      var j := SubAllDirsFrom(ds[1..], x);
      i := j + 1;
    }
  }

  /** Every directory listed by `all_dirs` is reached by a non-empty path: the
   *  root is never listed. */
  lemma {:induction false} AllDirsArePaths(d: Dir, x: Dir) returns (path: seq<nat>)
    requires x in AllDirs(d)
    ensures ValidPath(d, path) && |path| > 0 && At(d, path) == x
    decreases d
  {
    if x in d.subdirs {
      var i :| 0 <= i < |d.subdirs| && d.subdirs[i] == x;
      path := [i];
      assert path[1..] == [];
    } else {
      var i := SubAllDirsFrom(d.subdirs, x);
      var rest := AllDirsArePaths(d.subdirs[i], x);
      path := [i] + rest;
      assert path[1..] == rest;
    }
  }

  lemma {:induction false} SubSizesBound(ds: seq<Dir>, i: nat)
    requires i < |ds|
    ensures Size(ds[i]) <= SubSizes(ds)
    decreases i
  {
    if i > 0 {
      SubSizesBound(ds[1..], i - 1);
    }
  }

  /** A directory is at least as large as any directory below it. */
  lemma {:induction false} SizeAlongPath(d: Dir, path: seq<nat>)
    requires ValidPath(d, path)
    ensures Size(At(d, path)) <= Size(d)
    decreases |path|
  {
    if path != [] {
      SubSizesBound(d.subdirs, path[0]);
      SizeAlongPath(d.subdirs[path[0]], path[1..]);
    }
  }

  lemma SizeOfListed(d: Dir, x: Dir)
    requires x in AllDirs(d)
    ensures Size(x) <= Size(d)
  {
    var path := AllDirsArePaths(d, x);
    SizeAlongPath(d, path);
  }

  /** What a `dir` or file line adds to the current directory. */
  datatype Edit = NewDir(dir: Dir) | NewFile(file: File)

  function Apply(d: Dir, e: Edit): Dir
  {
    match e
    case NewDir(c) => d.(subdirs := d.subdirs + [c])
    case NewFile(f) => d.(files := d.files + [f])
  }

  /** The tree with an edit made to the directory at the end of `path`. */
  function UpdateAt(d: Dir, path: seq<nat>, e: Edit): Dir
    requires ValidPath(d, path)
    decreases |path|
  {
    if path == [] then Apply(d, e)
    else d.(subdirs := d.subdirs[path[0] := UpdateAt(d.subdirs[path[0]], path[1..], e)])
  }

  /** Adding an entry somewhere keeps every existing path valid. */
  lemma {:induction false} UpdateKeepsPath(d: Dir, p: seq<nat>, e: Edit, q: seq<nat>)
    requires ValidPath(d, p) && ValidPath(d, q)
    ensures ValidPath(UpdateAt(d, p, e), q)
    decreases |q|
  {
    var u := UpdateAt(d, p, e);
    if q != [] {
      if p == [] {
        assert u.subdirs[q[0]] == d.subdirs[q[0]];
      } else if p[0] == q[0] {
        UpdateKeepsPath(d.subdirs[p[0]], p[1..], e, q[1..]);
      } else {
        assert u.subdirs[q[0]] == d.subdirs[q[0]];
      }
    }
  }

  function EditSize(e: Edit): nat
  {
    match e
    case NewDir(c) => Size(c)
    case NewFile(f) => f.size
  }

  function EditDirs(e: Edit): nat
  {
    match e
    case NewDir(c) => DirCount(c)
    case NewFile(_) => 0
  }

  lemma {:induction false} SubSizesUpdate(ds: seq<Dir>, i: nat, x: Dir)
    requires i < |ds|
    ensures SubSizes(ds[i := x]) + Size(ds[i]) == SubSizes(ds) + Size(x)
    ensures SubDirCount(ds[i := x]) + DirCount(ds[i]) == SubDirCount(ds) + DirCount(x)
    decreases i
  {
    if i == 0 {
      assert ds[i := x][1..] == ds[1..];
    } else {
      assert ds[i := x][1..] == ds[1..][i - 1 := x];
      SubSizesUpdate(ds[1..], i - 1, x);
    }
  }

  lemma {:induction false} SubSizesAppend(ds: seq<Dir>, x: Dir)
    ensures SubSizes(ds + [x]) == SubSizes(ds) + Size(x)
    ensures SubDirCount(ds + [x]) == SubDirCount(ds) + DirCount(x)
    decreases |ds|
  {
    if ds == [] {
      assert ds + [x] == [x];
      assert [x][1..] == [];
    } else {
      assert (ds + [x])[1..] == ds[1..] + [x];
      SubSizesAppend(ds[1..], x);
    }
  }

  /** An edit grows the whole tree by exactly what it adds. */
  lemma {:induction false} UpdateGrows(d: Dir, p: seq<nat>, e: Edit)
    requires ValidPath(d, p)
    ensures Size(UpdateAt(d, p, e)) == Size(d) + EditSize(e)
    ensures DirCount(UpdateAt(d, p, e)) == DirCount(d) + EditDirs(e)
    decreases |p|
  {
    if p == [] {
      match e
      case NewDir(c) => SubSizesAppend(d.subdirs, c);
      case NewFile(f) =>
        FileTotalAppend(d.files, [f]);
        assert [f][1..] == [];
    } else {
      var c := d.subdirs[p[0]];
      UpdateGrows(c, p[1..], e);
      SubSizesUpdate(d.subdirs, p[0], UpdateAt(c, p[1..], e));
    }
  }

  /** The index of the first subdirectory with the given name. */
  function FindSubdir(ds: seq<Dir>, name: string): (r: Option<nat>)
    ensures r.Some? ==> (r.value < |ds| && ds[r.value].name == name &&
      forall j :: 0 <= j < r.value ==> ds[j].name != name)
    ensures r.None? ==> forall j :: 0 <= j < |ds| ==> ds[j].name != name
  {
    if ds == [] then None
    else if ds[0].name == name then Some(0)
    else match FindSubdir(ds[1..], name)
      case None => None
      case Some(i) => Some(i + 1)
  }

  const EmptyRoot := Dir("/", [], [])

  /** The tree the remaining lines build, from the tree so far and the current
   *  directory. */
  function Replay(lines: seq<Line>, root: Dir, path: seq<nat>): Result<Dir>
    requires ValidPath(root, path)
    decreases |lines|
  {
    if lines == [] then Ok(root)
    else match lines[0]
      case Ls => Replay(lines[1..], root, path)
      case DirLine(name) =>
        UpdateKeepsPath(root, path, NewDir(Dir(name, [], [])), path);
        Replay(lines[1..], UpdateAt(root, path, NewDir(Dir(name, [], []))), path)
      case FileLine(size, name) =>
        UpdateKeepsPath(root, path, NewFile(File(name, size)), path);
        Replay(lines[1..], UpdateAt(root, path, NewFile(File(name, size))), path)
      case Cd(target) =>
        if target == "/" then Replay(lines[1..], root, [])
        else if target == ".." then
          if path == [] then Err(Panic)
          else
            ParentPath(root, path);
            Replay(lines[1..], root, path[..|path| - 1])
        else match FindSubdir(At(root, path).subdirs, target)
          case None => Err(Panic)
          case Some(i) =>
            ChildPath(root, path, i);
            Replay(lines[1..], root, path + [i])
  }

  lemma {:induction false} ParentPath(d: Dir, path: seq<nat>)
    requires ValidPath(d, path) && path != []
    ensures ValidPath(d, path[..|path| - 1])
    decreases |path|
  {
    if |path| > 1 {
      ParentPath(d.subdirs[path[0]], path[1..]);
      assert path[..|path| - 1][1..] == path[1..][..|path| - 2];
    }
  }

  lemma {:induction false} ChildPath(d: Dir, path: seq<nat>, i: nat)
    requires ValidPath(d, path) && i < |At(d, path).subdirs|
    ensures ValidPath(d, path + [i]) && At(d, path + [i]) == At(d, path).subdirs[i]
    decreases |path|
  {
    if path == [] {
      assert ([] + [i])[1..] == [];
    } else {
      assert (path + [i])[1..] == path[1..] + [i];
      ChildPath(d.subdirs[path[0]], path[1..], i);
    }
  }

  /** The loop of `main`: `ls` does nothing, `dir` and file lines add an entry
   *  to the current directory, `cd /` returns to the root, `cd ..` goes to the
   *  parent (the root has none, and unwrapping it panics), `cd name` enters the
   *  first subdirectory so named (panicking if there is none). */
  method Build(lines: seq<Line>) returns (r: Result<Dir>)
    ensures r == Replay(lines, EmptyRoot, [])
  {
    var root := EmptyRoot;
    var path: seq<nat> := [];
    var i := 0;
    while i < |lines|
      invariant 0 <= i <= |lines|
      invariant ValidPath(root, path)
      invariant Replay(lines[i..], root, path) == Replay(lines, EmptyRoot, [])
    {
      assert lines[i..][1..] == lines[i + 1..];
      var line := lines[i];
      match line {
        case Ls =>
        case DirLine(_) =>
          var dir := ToDir(line).value;
          UpdateKeepsPath(root, path, NewDir(dir), path);
          root := UpdateAt(root, path, NewDir(dir));
        case FileLine(_, _) =>
          var file := ToFile(line).value;
          UpdateKeepsPath(root, path, NewFile(file), path);
          root := UpdateAt(root, path, NewFile(file));
        case Cd(target) =>
          if target == "/" {
            path := [];
          } else if target == ".." {
            if path == [] {
              return Err(Panic);
            }
            ParentPath(root, path);
            path := path[..|path| - 1];
          } else {
            var found := FindSubdir(At(root, path).subdirs, target);
            if found.None? {
              return Err(Panic);
            }
            ChildPath(root, path, found.value);
            path := path + [found.value];
          }
      }
      i := i + 1;
    }
    r := Ok(root);
  }

  /** The total size of the file lines. */
  function FileLineTotal(lines: seq<Line>): nat
  {
    if lines == [] then 0 else (if lines[0].FileLine? then lines[0].size else 0) + FileLineTotal(lines[1..])
  }

  function DirLineCount(lines: seq<Line>): nat
  {
    if lines == [] then 0 else (if lines[0].DirLine? then 1 else 0) + DirLineCount(lines[1..])
  }

  /** Every file line lands somewhere in the tree and every `dir` line adds one
   *  directory: the root's size is the total of the file lines. */
  lemma {:induction false} ReplayAccounts(lines: seq<Line>, root: Dir, path: seq<nat>)
    requires ValidPath(root, path)
    ensures var r := Replay(lines, root, path);
      r.Ok? ==> Size(r.value) == Size(root) + FileLineTotal(lines) &&
                DirCount(r.value) == DirCount(root) + DirLineCount(lines)
    decreases |lines|
  {
    if lines != [] {
      match lines[0]
      case Ls => ReplayAccounts(lines[1..], root, path);
      case DirLine(name) =>
        var e := NewDir(Dir(name, [], []));
        assert Size(e.dir) == 0 && DirCount(e.dir) == 1;
        UpdateKeepsPath(root, path, e, path);
        UpdateGrows(root, path, e);
        ReplayAccounts(lines[1..], UpdateAt(root, path, e), path);
      case FileLine(size, name) =>
        var e := NewFile(File(name, size));
        UpdateKeepsPath(root, path, e, path);
        UpdateGrows(root, path, e);
        ReplayAccounts(lines[1..], UpdateAt(root, path, e), path);
      case Cd(target) =>
        if target == "/" {
          ReplayAccounts(lines[1..], root, []);
        } else if target == ".." {
          if path != [] {
            ParentPath(root, path);
            ReplayAccounts(lines[1..], root, path[..|path| - 1]);
          }
        } else {
          match FindSubdir(At(root, path).subdirs, target)
          case None =>
          case Some(i) =>
            ChildPath(root, path, i);
            ReplayAccounts(lines[1..], root, path + [i]);
        }
    }
  }

  const MAX_SIZE: nat := 100000
  const AVAILABLE_SPACE: nat := 70000000
  const UNUSED_SPACE_REQUIRED: nat := 30000000
  const MAX_USED_SPACE: nat := AVAILABLE_SPACE - UNUSED_SPACE_REQUIRED

  /** The sum of the sizes of the listed directories of at most MAX_SIZE. */
  function SmallTotal(ds: seq<Dir>): nat
  {
    if ds == [] then 0 else (if Size(ds[0]) <= MAX_SIZE then Size(ds[0]) else 0) + SmallTotal(ds[1..])
  }

  /** Every small directory contributes its size, and nothing else does. */
  lemma {:induction false} SmallTotalMeaning(ds: seq<Dir>)
    ensures forall i :: 0 <= i < |ds| && Size(ds[i]) <= MAX_SIZE ==> Size(ds[i]) <= SmallTotal(ds)
    ensures (forall i :: 0 <= i < |ds| ==> Size(ds[i]) > MAX_SIZE) ==> SmallTotal(ds) == 0
    ensures SmallTotal(ds) <= MAX_SIZE * |ds|
  {
    if ds != [] {
      SmallTotalMeaning(ds[1..]);
      forall i | 1 <= i < |ds| && Size(ds[i]) <= MAX_SIZE ensures Size(ds[i]) <= SmallTotal(ds) {
        assert ds[i] == ds[1..][i - 1];
      }
      if forall i :: 0 <= i < |ds| ==> Size(ds[i]) > MAX_SIZE {
        forall i | 0 <= i < |ds[1..]| ensures Size(ds[1..][i]) > MAX_SIZE {
          assert ds[1..][i] == ds[i + 1];
        }
      }
    }
  }

  /** The first answer: the total size of the small directories below the root. */
  function SmallDirs(root: Dir): nat
  {
    SmallTotal(AllDirs(root))
  }

  /** The smallest size among the listed directories that is at least `bound`:
   *  the first element of the sorted candidate sizes. */
  function SmallestAtLeast(ds: seq<Dir>, bound: nat): (r: Option<nat>)
    ensures r.Some? ==> (r.value >= bound && (exists i :: 0 <= i < |ds| && Size(ds[i]) == r.value) &&
      forall i :: 0 <= i < |ds| && Size(ds[i]) >= bound ==> r.value <= Size(ds[i]))
    ensures r.None? <==> forall i :: 0 <= i < |ds| ==> Size(ds[i]) < bound
  {
    if ds == [] then None
    else
      var rest := SmallestAtLeast(ds[1..], bound);
      var here := Size(ds[0]);
      assert forall i :: 1 <= i < |ds| ==> ds[i] == ds[1..][i - 1];
      if here < bound then rest
      else match rest
        case None => Some(here)
        case Some(v) => Some(Min(here, v))
  }

  /** The second answer: the space to free is the used space beyond
   *  MAX_USED_SPACE (a usize subtraction that panics below it); the answer is
   *  the smallest listed directory that frees enough, and there must be one. */
  function ToDelete(root: Dir): (r: Result<nat>)
    ensures r.Ok? ==> (Size(root) >= MAX_USED_SPACE && r.value >= Size(root) - MAX_USED_SPACE &&
      (exists x :: x in AllDirs(root) && Size(x) == r.value) &&
      forall x :: x in AllDirs(root) && Size(x) >= Size(root) - MAX_USED_SPACE ==> r.value <= Size(x))
    ensures r.Err? <==> (Size(root) < MAX_USED_SPACE ||
      forall x :: x in AllDirs(root) ==> Size(x) < Size(root) - MAX_USED_SPACE)
    ensures r.Err? ==> r.failure == Panic
  {
    var used := Size(root);
    if used < MAX_USED_SPACE then Err(Panic)
    else match SmallestAtLeast(AllDirs(root), used - MAX_USED_SPACE)
      case None => Err(Panic)
      case Some(v) => Ok(v)
  }
}
