/** The directory tree of the block file system (src/precompiled/Utilities.cpp): building a path of directories, and
    splitting paths. */
module DirectoryTree {
  import opened Options

  const DIRECTORY := "directory"
  const MAX_LENGTH := 56
  const MAX_LEVEL := 6

  // ---------- paths ----------

  /** A name that can stand between two slashes. */
  predicate Plain(name: string) { name != "" && '/' !in name }

  predicate AllPlain(dirs: seq<string>) { forall i :: 0 <= i < |dirs| ==> Plain(dirs[i]) }

  function Child(root: string, dir: string): string { (if root == "/" then root else root + "/") + dir }

  /** The path of the first k directories. */
  function PathOf(dirs: seq<string>, k: nat): (path: string)
    requires k <= |dirs|
    ensures |path| > 0
  {
    if k == 0 then "/" else Child(PathOf(dirs, k - 1), dirs[k - 1])
  }

  /** A path of a plain name below another has one parent only. */
  lemma ChildInjective(r: string, d: string, r': string, d': string)
    requires Plain(d) && Plain(d') && r != "" && r' != "" && Child(r, d) == Child(r', d')
    ensures r == r' && d == d'
  {
    var s := Child(r, d);
    var a, b := |s| - |d| - 1, |s| - |d'| - 1;
    assert s[a] == '/' && s[b] == '/';
    assert forall i :: a < i < |s| ==> s[i] == d[i - a - 1];
    assert forall i :: b < i < |s| ==> s[i] == d'[i - b - 1];
    assert a == b;
    assert d == s[a + 1..] && d' == s[a + 1..];
    assert s[..a] == if r == "/" then "" else r;
    assert s[..a] == if r' == "/" then "" else r';
  }

  /** Up to the first character that is no slash. */
  function SkipSlashes(s: string, pos: nat): (end: nat)
    requires pos <= |s|
    ensures pos <= end <= |s| && (end < |s| ==> s[end] != '/')
    decreases |s| - pos
  {
    if pos < |s| && s[pos] == '/' then SkipSlashes(s, pos + 1) else pos
  }

  /** boost::split at slashes, neighbouring slashes counting as one; the current token began at from. */
  function Tokens(s: string, from: nat, pos: nat): seq<string>
    requires from <= pos <= |s|
    decreases |s| - pos
  {
    if pos == |s| then [s[from..pos]]
    else if s[pos] == '/' then [s[from..pos]] + Tokens(s, SkipSlashes(s, pos + 1), SkipSlashes(s, pos + 1))
    else Tokens(s, from, pos + 1)
  }

  /** One slash less in front. */
  function StripFront(s: string): string { if s != "" && s[0] == '/' then s[1..] else s }

  /** One slash less at the end. */
  function StripBack(s: string): string { if s != "" && s[|s| - 1] == '/' then s[..|s| - 1] else s }

  /** The directories that a path names. */
  function Components(path: string): seq<string> {
    var s := StripBack(StripFront(path));
    Tokens(s, 0, 0)
  }

  /** Where directory k begins in the path. */
  function StartOf(dirs: seq<string>, k: nat): (start: nat)
    requires k <= |dirs|
    ensures start > 0
  {
    if k == 0 then 1 else StartOf(dirs, k - 1) + |dirs[k - 1]| + 1
  }

  lemma {:induction false} StartAfterPath(dirs: seq<string>, k: nat)
    requires k <= |dirs| && AllPlain(dirs)
    ensures StartOf(dirs, k) == if k == 0 then 1 else |PathOf(dirs, k)| + 1
  {
    if k > 0 {
      StartAfterPath(dirs, k - 1);
      LongerThanRoot(dirs, k - 1);
    }
  }

  lemma {:induction false} PathPrefix(dirs: seq<string>, k: nat, n: nat)
    requires k <= n <= |dirs|
    ensures PathOf(dirs, k) <= PathOf(dirs, n)
  {
    if k < n { PathPrefix(dirs, k, n - 1); }
  }

  predicate NameAt(s: string, from: int, name: string) {
    0 <= from <= from + |name| <= |s| && forall j | from <= j < from + |name| :: s[j] == name[j - from]
  }

  /** Directory k and the slash before it. */
  predicate DirAt(path: string, dirs: seq<string>, k: nat)
    requires k < |dirs|
  {
    NameAt(path, StartOf(dirs, k), dirs[k]) && NameAt(path, StartOf(dirs, k) - 1, "/")
  }

  predicate ReadsAs(path: string, dirs: seq<string>) {
    |path| + 1 == StartOf(dirs, |dirs|) && forall k | 0 <= k < |dirs| :: DirAt(path, dirs, k)
  }

  lemma PathReads(dirs: seq<string>)
    requires dirs != [] && AllPlain(dirs)
    ensures ReadsAs(PathOf(dirs, |dirs|), dirs)
  {
    StartAfterPath(dirs, |dirs|);
    forall k | 0 <= k < |dirs| ensures DirAt(PathOf(dirs, |dirs|), dirs, k) { DirInPath(dirs, k); }
  }

  lemma {:induction false} DirInPath(dirs: seq<string>, k: nat)
    requires k < |dirs| && AllPlain(dirs)
    ensures DirAt(PathOf(dirs, |dirs|), dirs, k)
  {
    LongerThanRoot(dirs, k);
    StartAfterPath(dirs, k);
    PathPrefix(dirs, k + 1, |dirs|);
    NamesBelow(PathOf(dirs, k), dirs[k], PathOf(dirs, |dirs|), StartOf(dirs, k));
  }

  lemma NamesBelow(root: string, dir: string, path: string, start: nat)
    requires |root| > 0 && Child(root, dir) <= path && start == if root == "/" then 1 else |root| + 1
    ensures NameAt(path, start, dir) && NameAt(path, start - 1, "/")
  {
    var p := Child(root, dir);
    assert p[start..] == dir && p[start - 1] == '/';
  }

  /** Only the path of no directories is a single slash. */
  lemma LongerThanRoot(dirs: seq<string>, k: nat)
    requires k <= |dirs| && AllPlain(dirs)
    ensures PathOf(dirs, k) == "/" <==> k == 0
  {
    if k > 0 { assert Plain(dirs[k - 1]); }
  }

  /** A token ends at the next slash. */
  lemma {:induction false} TokenRun(s: string, from: nat, pos: nat, end: nat)
    requires from <= pos <= end <= |s| && forall i | pos <= i < end :: s[i] != '/'
    ensures Tokens(s, from, pos) == Tokens(s, from, end)
    decreases end - pos
  {
    if pos < end { TokenRun(s, from, pos + 1, end); }
  }

  /** A plain name is a token, followed by the rest if there is any. */
  lemma TokenThenRest(s: string, from: nat, name: string)
    requires NameAt(s, from, name) && Plain(name)
    requires from + |name| < |s| ==> from + |name| + 1 < |s| && s[from + |name|] == '/' && s[from + |name| + 1] != '/'
    ensures var end := from + |name|;
            Tokens(s, from, from) == [name] + if end == |s| then [] else Tokens(s, end + 1, end + 1)
  {
    var end := from + |name|;
    forall i | from <= i < end ensures s[i] != '/' { assert s[i] == name[i - from]; }
    TokenRun(s, from, from, end);
    assert s[from..end] == name;
    if end < |s| { assert SkipSlashes(s, end + 1) == end + 1; }
  }

  predicate Stripped(s: string, path: string) { |s| + 1 == |path| && forall i | 0 <= i < |s| :: s[i] == path[i + 1] }

  lemma NameStripped(s: string, path: string, from: int, name: string)
    requires Stripped(s, path) && 0 < from && NameAt(path, from, name)
    ensures NameAt(s, from - 1, name)
  {
    forall j | from - 1 <= j < from - 1 + |name| ensures s[j] == name[j - (from - 1)] {
      assert path[j + 1] == name[j + 1 - from];
    }
  }

  /** Directory k is at a position, followed by a slash and the next directory, if there is one. */
  predicate Placed(s: string, dirs: seq<string>, k: nat, from: int, next: int)
    requires k < |dirs|
  {
    && NameAt(s, from, dirs[k]) && next == from + |dirs[k]| + 1
    && if k + 1 == |dirs| then next == |s| + 1 else next < |s| && s[next - 1] == '/' && s[next] != '/'
  }

  lemma PlacedNext(s: string, dirs: seq<string>, k: nat, from: int, next: int)
    requires k < |dirs| && AllPlain(dirs) && NameAt(s, from, dirs[k]) && next == from + |dirs[k]| + 1
    requires if k + 1 == |dirs| then next == |s| + 1 else NameAt(s, next - 1, "/") && NameAt(s, next, dirs[k + 1])
    ensures Placed(s, dirs, k, from, next)
  {
    if k + 1 < |dirs| {
      assert Plain(dirs[k + 1]);
      assert s[next - 1] == "/"[0] && s[next] == dirs[k + 1][0];
    }
  }

  lemma PlacedInPath(path: string, dirs: seq<string>, k: nat, s: string)
    requires k < |dirs| && AllPlain(dirs) && ReadsAs(path, dirs) && Stripped(s, path)
    ensures Placed(s, dirs, k, StartOf(dirs, k) - 1, StartOf(dirs, k + 1) - 1)
  {
    assert DirAt(path, dirs, k);
    NameStripped(s, path, StartOf(dirs, k), dirs[k]);
    if k + 1 < |dirs| {
      assert DirAt(path, dirs, k + 1);
      NameStripped(s, path, StartOf(dirs, k + 1), dirs[k + 1]);
      NameStripped(s, path, StartOf(dirs, k + 1) - 1, "/");
    }
    PlacedNext(s, dirs, k, StartOf(dirs, k) - 1, StartOf(dirs, k + 1) - 1);
  }

  /** Splitting gives the directories that are placed one after the other. */
  lemma {:induction false} TokensOfPlaced(dirs: seq<string>, k: nat, s: string, starts: seq<int>)
    requires k < |dirs| && AllPlain(dirs) && |starts| == |dirs| + 1
    requires forall j | 0 <= j < |dirs| :: Placed(s, dirs, j, starts[j], starts[j + 1])
    ensures 0 <= starts[k] <= |s| && Tokens(s, starts[k], starts[k]) == dirs[k..]
    decreases |dirs| - k
  {
    assert Placed(s, dirs, k, starts[k], starts[k + 1]) && Plain(dirs[k]);
    if k + 1 < |dirs| { TokensOfPlaced(dirs, k + 1, s, starts); }
    TokenThenRest(s, starts[k], dirs[k]);
  }

  /** Splitting a path gives the directories that it was made of. */
  lemma ComponentsOfPath(dirs: seq<string>)
    requires dirs != [] && AllPlain(dirs)
    ensures Components(PathOf(dirs, |dirs|)) == dirs
  {
    PathReads(dirs);
    ComponentsRead(PathOf(dirs, |dirs|), dirs);
  }

  lemma ComponentsRead(path: string, dirs: seq<string>)
    requires dirs != [] && AllPlain(dirs) && ReadsAs(path, dirs)
    ensures Components(path) == dirs
  {
    PathEnds(path, dirs);
    var s := path[1..];
    assert StripFront(path) == s && StripBack(s) == s;
    var starts := seq(|dirs| + 1, k requires 0 <= k <= |dirs| => StartOf(dirs, k) - 1);
    forall k | 0 <= k < |dirs| ensures Placed(s, dirs, k, starts[k], starts[k + 1]) { PlacedInPath(path, dirs, k, s); }
    TokensOfPlaced(dirs, 0, s, starts);
  }

  lemma PathEnds(path: string, dirs: seq<string>)
    requires dirs != [] && AllPlain(dirs) && ReadsAs(path, dirs)
    ensures |path| > 1 && path[0] == '/' && path[|path| - 1] != '/'
  {
    var last := |dirs| - 1;
    assert DirAt(path, dirs, 0) && DirAt(path, dirs, last);
    assert path[0] == "/"[0];
    assert Plain(dirs[last]);
    assert path[|path| - 1] == dirs[last][|dirs[last]| - 1];
  }

  /** boost::join with slashes between. */
  function Joined(dirs: seq<string>): string {
    if dirs == [] then "" else if |dirs| == 1 then dirs[0] else Joined(dirs[..|dirs| - 1]) + "/" + dirs[|dirs| - 1]
  }

  lemma {:induction false} JoinedPath(dirs: seq<string>, k: nat)
    requires k <= |dirs| && AllPlain(dirs)
    ensures "/" + Joined(dirs[..k]) == PathOf(dirs, k)
  {
    if k > 1 {
      JoinedPath(dirs, k - 1);
      LongerThanRoot(dirs, k - 1);
      assert dirs[..k][..k - 1] == dirs[..k - 1];
    }
  }

  /** One slash in front and one at the end make no difference. */
  lemma SlashesStripped(p: string)
    requires p != "" && p[0] != '/' && p[|p| - 1] != '/'
    ensures Components(p) == Components("/" + p) == Components(p + "/") == Components("/" + p + "/")
  {
    assert ("/" + p)[1..] == p && (p + "/")[..|p|] == p;
    assert ("/" + p + "/")[1..] == p + "/";
  }

  /** The ways to write the path of some directories without slashes side by side. */
  predicate Writes(path: string, dirs: seq<string>) {
    path == Joined(dirs) || path == "/" + Joined(dirs) || path == Joined(dirs) + "/" || path == "/" + Joined(dirs) + "/"
  }

  /** However it is written, a path splits into its directories. */
  lemma WrittenSplits(path: string, dirs: seq<string>)
    requires dirs != [] && AllPlain(dirs) && Writes(path, dirs)
    ensures Components(path) == dirs && path != "" && path != "/"
  {
    var p := Joined(dirs);
    JoinedPath(dirs, |dirs|);
    assert dirs[..|dirs|] == dirs;
    var full := "/" + p;
    PathReads(dirs);
    PathEnds(full, dirs);
    assert full[1..] == p && p[|p| - 1] == full[|p|];
    JoinedStart(dirs);
    SlashesStripped(p);
    ComponentsOfPath(dirs);
  }

  lemma {:induction false} JoinedStart(dirs: seq<string>)
    requires dirs != [] && AllPlain(dirs)
    ensures Joined(dirs) != "" && Joined(dirs)[0] == dirs[0][0] != '/'
  {
    assert Plain(dirs[0]);
    if |dirs| > 1 {
      assert dirs[..|dirs| - 1][0] == dirs[0];
      JoinedStart(dirs[..|dirs| - 1]);
    }
  }

  datatype ParentAndBase = ParentAndBase(parent: string, base: string) | OutOfRangeError

  function GetParentDirAndBaseName(path: string): ParentAndBase {
    if path == "/" then ParentAndBase("/", "/")
    else if StripFront(path) == "" then OutOfRangeError
    else
      var dirList := Components(path);
      if dirList == [] then OutOfRangeError
      else ParentAndBase("/" + Joined(dirList[..|dirList| - 1]), dirList[|dirList| - 1])
  }

  lemma ParentJoined(path: string, dirs: seq<string>)
    requires dirs != [] && Components(path) == dirs && |path| > 1 && path[0] == '/'
    ensures GetParentDirAndBaseName(path) == ParentAndBase("/" + Joined(dirs[..|dirs| - 1]), dirs[|dirs| - 1])
  {
  }

  /** The parent of a path of directories is the path without the last one. */
  lemma ParentOfPath(dirs: seq<string>)
    requires dirs != [] && AllPlain(dirs)
    ensures GetParentDirAndBaseName(PathOf(dirs, |dirs|)) == ParentAndBase(PathOf(dirs, |dirs| - 1), dirs[|dirs| - 1])
  {
    ComponentsOfPath(dirs);
    PathReads(dirs);
    PathEnds(PathOf(dirs, |dirs|), dirs);
    ParentJoined(PathOf(dirs, |dirs|), dirs);
    JoinedPath(dirs, |dirs| - 1);
  }

  predicate FieldChar(c: char) { 'a' <= c <= 'z' || 'A' <= c <= 'Z' || '0' <= c <= '9' || c == '_' }

  predicate ValidField(name: string) {
    name != "" && name[0] != '_' && forall i | 0 <= i < |name| :: FieldChar(name[i])
  }

  predicate CheckPathValid(path: string) {
    && path != "" && |path| <= MAX_LENGTH
    && (path == "/"
        || (|Components(path)| <= MAX_LEVEL &&
            forall i | 0 <= i < |Components(path)| :: ValidField(Components(path)[i])))
  }

  /** A valid path other than the root splits into plain names, and joining its parent and base name gives a path of
      the same directories. */
  lemma ValidSplits(path: string)
    requires CheckPathValid(path) && path != "/"
    ensures AllPlain(Components(path)) && 1 <= |Components(path)| <= MAX_LEVEL
    ensures GetParentDirAndBaseName(path).ParentAndBase?
    ensures var r := GetParentDirAndBaseName(path); Components(Child(r.parent, r.base)) == Components(path)
  {
    var dirs := Components(path);
    forall i | 0 <= i < |dirs| ensures Plain(dirs[i]) {
      assert ValidField(dirs[i]) && !FieldChar('/');
    }
    SomeToken(StripBack(StripFront(path)), 0, 0);
    JoinedPath(dirs, |dirs| - 1);
    ComponentsOfPath(dirs);
  }

  /** A path other than the root is accepted exactly when it is short and made of one to six valid names. */
  lemma AcceptedIff(path: string, dirs: seq<string>)
    requires dirs != [] && AllPlain(dirs) && Writes(path, dirs)
    ensures CheckPathValid(path) <==>
            |path| <= MAX_LENGTH && |dirs| <= MAX_LEVEL && forall d | d in dirs :: ValidField(d)
  {
    WrittenSplits(path, dirs);
  }

  lemma {:induction false} SomeToken(s: string, from: nat, pos: nat)
    requires from <= pos <= |s|
    ensures Tokens(s, from, pos) != []
    decreases |s| - pos
  {
    if pos < |s| && s[pos] != '/' { SomeToken(s, from, pos + 1); }
  }

  // ---------- the tree ----------

  /** A table: the type that its type row gives, if it has one, and the names and types listed in its sub row. */
  datatype Node = Node(ty: Option<string>, sub: map<string, string>)

  type Tables = map<string, Node>

  predicate IsDir(tables: Tables, path: string) { path in tables && tables[path].ty == Some(DIRECTORY) }

  /** Everything below a path is listed there, the path being a directory, and everything listed exists. */
  ghost predicate WellFormed(tables: Tables) {
    && IsDir(tables, "/")
    && (forall r, d | r != "" && Plain(d) && Child(r, d) in tables :: IsDir(tables, r) && d in tables[r].sub)
    && (forall r, d | r in tables && d in tables[r].sub :: Child(r, d) in tables)
  }

  /** A directory with a new, empty directory in it. */
  function WithDir(tables: Tables, root: string, dir: string): Tables
    requires root in tables
  {
    var node := tables[root];
    tables[root := node.(sub := if dir in node.sub then node.sub else node.sub[dir := DIRECTORY])]
          [Child(root, dir) := Node(Some(DIRECTORY), map[])]
  }

  /** The tables after the first k directories of a path were made where they did not exist. */
  function Grown(tables: Tables, dirs: seq<string>, k: nat): Tables
    requires k <= |dirs|
  {
    if k == 0 then tables
    else
      var t := Grown(tables, dirs, k - 1);
      if PathOf(dirs, k) in t || PathOf(dirs, k - 1) !in t then t else WithDir(t, PathOf(dirs, k - 1), dirs[k - 1])
  }

  /** Building a path that is there changes nothing. */
  lemma {:induction false} GrownAgain(tables: Tables, dirs: seq<string>, k: nat)
    requires k <= |dirs| && Listed(tables, dirs, |dirs|)
    ensures Grown(tables, dirs, k) == tables && NothingInTheWay(tables, dirs)
  {
    forall j | 0 <= j < |dirs| ensures Clear(tables, dirs, j) { assert ListedAt(tables, dirs, j); }
    if k > 0 {
      GrownAgain(tables, dirs, k - 1);
      assert ListedAt(tables, dirs, k - 1);
    }
  }

  /** Nothing below the path exists. */
  ghost predicate Bare(tables: Tables, path: string) { forall d | Plain(d) :: Child(path, d) !in tables }

  lemma WithDirWellFormed(tables: Tables, root: string, dir: string)
    requires WellFormed(tables) && root != "" && IsDir(tables, root) && Plain(dir) && Child(root, dir) !in tables
    ensures WellFormed(WithDir(tables, root, dir)) && Bare(WithDir(tables, root, dir), Child(root, dir))
  {
    var after, path := WithDir(tables, root, dir), Child(root, dir);
    forall r, d | r != "" && Plain(d) && Child(r, d) in after ensures IsDir(after, r) && d in after[r].sub {
      if Child(r, d) == path { ChildInjective(r, d, root, dir); }
      else { assert Child(r, d) in tables; }
    }
    forall r, d | r in after && d in after[r].sub ensures Child(r, d) in after {
      if r != path && !(r == root && d == dir) { assert r in tables && d in tables[r].sub; }
    }
    forall d | Plain(d) ensures Child(path, d) !in after { NothingBelow(tables, root, dir, d); }
  }

  /** Nothing is below what does not exist. */
  lemma NothingBelow(tables: Tables, root: string, dir: string, d: string)
    requires WellFormed(tables) && root != "" && Plain(dir) && Plain(d) && Child(root, dir) !in tables
    ensures Child(Child(root, dir), d) !in tables
    ensures |Child(Child(root, dir), d)| > |root| && |Child(Child(root, dir), d)| > |Child(root, dir)|
  {
  }

  predicate SameOrMore(before: Node, after: Node) {
    after.ty == before.ty && forall d | d in before.sub :: d in after.sub
  }

  /** What was there is there, with the same type and at least the same names in it. */
  predicate Extends(before: Tables, after: Tables) {
    forall t | t in before :: t in after && SameOrMore(before[t], after[t])
  }

  /** No path on the way is taken by something other than a directory. */
  predicate NothingInTheWay(tables: Tables, dirs: seq<string>) {
    forall j | 0 <= j < |dirs| :: Clear(tables, dirs, j)
  }

  predicate Clear(tables: Tables, dirs: seq<string>, j: nat)
    requires j < |dirs|
  {
    PathOf(dirs, j + 1) in tables ==> IsDir(tables, PathOf(dirs, j + 1))
  }

  /** Each of the first k directories exists and is listed in the one before. */
  predicate Listed(tables: Tables, dirs: seq<string>, k: nat)
    requires k <= |dirs|
  {
    forall j | 0 <= j < k :: ListedAt(tables, dirs, j)
  }

  predicate ListedAt(tables: Tables, dirs: seq<string>, j: nat)
    requires j < |dirs|
  {
    IsDir(tables, PathOf(dirs, j + 1)) && IsDir(tables, PathOf(dirs, j)) && dirs[j] in tables[PathOf(dirs, j)].sub
  }

  /** Each directory of the path exists and is listed in the one before, and nothing else happened. */
  ghost predicate IsBuilt(before: Tables, after: Tables, dirs: seq<string>) {
    && WellFormed(after) && Extends(before, after) && Listed(after, dirs, |dirs|)
    && after == Grown(before, dirs, |dirs|)
  }

  // ---------- building ----------

  datatype Outcome = Built | Refused | OutOfRange

  datatype Result = Result(outcome: Outcome, tables: Tables)

  /** The directories from the k-th on, below root. */
  function Walk(tables: Tables, dirs: seq<string>, k: nat, root: string): Result
    requires k <= |dirs|
    decreases |dirs| - k
  {
    if k == |dirs| then Result(Built, tables)
    else if root !in tables || tables[root].ty.None? then Result(Refused, tables)
    else
      var path := Child(root, dirs[k]);
      if path !in tables then Walk(WithDir(tables, root, dirs[k]), dirs, k + 1, path)
      else if IsDir(tables, path) then Walk(tables, dirs, k + 1, path)
      else Result(Refused, tables)
  }

  function BuildPath(tables: Tables, path: string): Result {
    if path == "" then Result(Refused, tables)
    else if path == "/" then Result(OutOfRange, tables)
    else Walk(tables, Components(path), 0, "/")
  }

  class Storage {
    var tables: Tables

    constructor (tables: Tables)
      ensures this.tables == tables
    {
      this.tables := tables;
    }

    method OpenTable(name: string) returns (r: Option<Node>)
      ensures r == if name in tables then Some(tables[name]) else None
    {
      if name in tables {
        return Some(tables[name]);
      }
      return None;
    }

    method RecursiveBuildDir(path: string) returns (r: Outcome)
      modifies this
      ensures Result(r, tables) == BuildPath(old(tables), path)
    {
      if path == "" {
        return Refused;
      }
      var absoluteDir := path;
      if absoluteDir[0] == '/' {
        absoluteDir := absoluteDir[1..];
      }
      if absoluteDir == "" {
        return OutOfRange;
      }
      if absoluteDir[|absoluteDir| - 1] == '/' {
        absoluteDir := absoluteDir[..|absoluteDir| - 1];
      }
      var dirList := Tokens(absoluteDir, 0, 0);
      assert dirList == Components(path);
      r := BuildDirs(dirList);
    }

    /** The loop over the directories of the path. */
    method BuildDirs(dirList: seq<string>) returns (r: Outcome)
      modifies this
      ensures Result(r, tables) == Walk(old(tables), dirList, 0, "/")
    {
      var root := "/";
      for k := 0 to |dirList|
        invariant Walk(tables, dirList, k, root) == Walk(old(tables), dirList, 0, "/")
      {
        var dir := dirList[k];
        var table := OpenTable(root);
        if table.None? {
          return Refused;
        }
        if table.value.ty.None? {
          return Refused;
        }
        var path := Child(root, dir);
        var nextDirTable := OpenTable(path);
        if nextDirTable.Some? {
          if nextDirTable.value.ty == Some(DIRECTORY) {
            root := path;
            continue;
          }
          return Refused;
        }
        tables := WithDir(tables, root, dir);
        root := path;
      }
      return Built;
    }
  }

  // ---------- what building does ----------

  /** Everything on the way is a directory, and built if it was not there; or something else is in the way, and nothing
      has changed. */
  ghost predicate Meant(before: Tables, r: Result, dirs: seq<string>) {
    if NothingInTheWay(before, dirs) then r.outcome == Built && IsBuilt(before, r.tables, dirs)
    else r == Result(Refused, before)
  }

  /** In a well-formed tree, a path of plain names is built iff nothing but directories is on its way; otherwise
      nothing changes. */
  lemma BuildMeans(tables: Tables, path: string)
    requires WellFormed(tables) && path != "" && path != "/" && AllPlain(Components(path))
    ensures Meant(tables, BuildPath(tables, path), Components(path))
  {
    assert Extends(tables, tables);
    WalkMeans(tables, tables, Components(path), 0, "/");
  }

  lemma {:induction false} WalkMeans(before: Tables, now: Tables, dirs: seq<string>, k: nat, root: string)
    requires OnTheWay(before, now, dirs, k, root)
    ensures Meant(before, Walk(now, dirs, k, root), dirs)
    decreases |dirs| - k
  {
    if k == |dirs| {
      WalkEnds(before, now, dirs, root);
    } else {
      WalkStep(before, now, dirs, k, root);
      var path := Child(root, dirs[k]);
      if path !in now {
        Created(before, now, dirs, k, root);
        WalkMeans(before, WithDir(now, root, dirs[k]), dirs, k + 1, path);
      } else if IsDir(now, path) {
        Passed(before, now, dirs, k, root);
        WalkMeans(before, now, dirs, k + 1, path);
      } else {
        Blocked(before, now, dirs, k, root);
      }
    }
  }

  lemma WalkEnds(before: Tables, now: Tables, dirs: seq<string>, root: string)
    requires OnTheWay(before, now, dirs, |dirs|, root)
    ensures Meant(before, Result(Built, now), dirs)
  {
  }

  lemma WalkStep(before: Tables, now: Tables, dirs: seq<string>, k: nat, root: string)
    requires OnTheWay(before, now, dirs, k, root) && k < |dirs|
    ensures root in now
    ensures var path := Child(root, dirs[k]);
            Walk(now, dirs, k, root) ==
            if path !in now then Walk(WithDir(now, root, dirs[k]), dirs, k + 1, path)
            else if IsDir(now, path) then Walk(now, dirs, k + 1, path) else Result(Refused, now)
  {
  }

  // ---------- slashes in excess ----------

  /** Only the first and the last name of a path can be empty. */
  lemma InnerNamesPlain(path: string, i: nat)
    requires 0 < i < |Components(path)| - 1
    ensures Plain(Components(path)[i])
  {
    InnerTokensPlain(StripBack(StripFront(path)), 0, 0, i);
  }

  lemma {:induction false} InnerTokensPlain(s: string, from: nat, pos: nat, i: nat)
    requires from <= pos <= |s| && forall j | from <= j < pos :: s[j] != '/'
    requires i < |Tokens(s, from, pos)| - 1 && (i > 0 || pos > from || (pos < |s| && s[pos] != '/'))
    ensures Plain(Tokens(s, from, pos)[i])
    decreases |s| - pos
  {
    if pos < |s| && s[pos] != '/' {
      InnerTokensPlain(s, from, pos + 1, i);
    } else if i > 0 {
      var next := SkipSlashes(s, pos + 1);
      InnerTokensPlain(s, next, next, i - 1);
    }
  }

  lemma {:induction false} WalkShift(tables: Tables, dir: string, dirs: seq<string>, k: nat, root: string)
    requires k <= |dirs|
    ensures Walk(tables, [dir] + dirs, k + 1, root) == Walk(tables, dirs, k, root)
    decreases |dirs| - k
  {
    if k < |dirs| && root in tables && tables[root].ty.Some? {
      var path := Child(root, dirs[k]);
      if path !in tables { WalkShift(WithDir(tables, root, dirs[k]), dir, dirs, k + 1, path); }
      else if IsDir(tables, path) { WalkShift(tables, dir, dirs, k + 1, path); }
    }
  }

  /** An empty name in front, of a path that begins with two slashes, is passed over. */
  lemma LeadingSlashes(tables: Tables, dirs: seq<string>)
    requires IsDir(tables, "/")
    ensures Walk(tables, [""] + dirs, 0, "/") == Walk(tables, dirs, 0, "/")
  {
    assert Child("/", "") == "/";
    WalkShift(tables, "", dirs, 0, "/");
  }

  lemma {:induction false} WalkAppend(tables: Tables, dirs: seq<string>, dir: string, k: nat)
    requires k <= |dirs|
    ensures var r := Walk(tables, dirs, k, PathOf(dirs, k));
            Walk(tables, dirs + [dir], k, PathOf(dirs, k)) ==
            if r.outcome == Built then Walk(r.tables, [dir], 0, PathOf(dirs, |dirs|)) else r
    decreases |dirs| - k
  {
    var root := PathOf(dirs, k);
    if k == |dirs| {
      LastStep(tables, dirs, dir, root);
    } else if root in tables && tables[root].ty.Some? {
      var path := Child(root, dirs[k]);
      assert path == PathOf(dirs, k + 1) && (dirs + [dir])[k] == dirs[k];
      if path !in tables { WalkAppend(WithDir(tables, root, dirs[k]), dirs, dir, k + 1); }
      else if IsDir(tables, path) { WalkAppend(tables, dirs, dir, k + 1); }
    }
  }

  lemma LastStep(tables: Tables, dirs: seq<string>, dir: string, root: string)
    ensures Walk(tables, dirs + [dir], |dirs|, root) == Walk(tables, [dir], 0, root)
  {
    assert (dirs + [dir])[|dirs|] == dir;
  }

  /** An empty name at the end, of a path that ends in two slashes, makes a directory of its own, with a slash at its
      end, where there is none. */
  lemma TrailingSlashes(tables: Tables, dirs: seq<string>)
    requires WellFormed(tables) && dirs != [] && AllPlain(dirs)
    ensures var r := Walk(tables, dirs, 0, "/"); r.outcome == Built ==> PathOf(dirs, |dirs|) in r.tables
    ensures var r, path := Walk(tables, dirs, 0, "/"), PathOf(dirs, |dirs|);
            Walk(tables, dirs + [""], 0, "/") ==
            if r.outcome != Built || IsDir(r.tables, path + "/") then r
            else if path + "/" in r.tables then Result(Refused, r.tables)
            else Result(Built, WithDir(r.tables, path, ""))
  {
    var r, path := Walk(tables, dirs, 0, "/"), PathOf(dirs, |dirs|);
    WalkAppend(tables, dirs, "", 0);
    if r.outcome == Built {
      assert Extends(tables, tables);
      WalkMeans(tables, tables, dirs, 0, "/");
      LongerThanRoot(dirs, |dirs|);
      assert ListedAt(r.tables, dirs, |dirs| - 1);
      assert Child(path, "") == path + "/";
    }
  }

  // ---------- what the loop keeps ----------

  ghost predicate OnTheWay(before: Tables, now: Tables, dirs: seq<string>, k: nat, root: string) {
    && AllPlain(dirs) && k <= |dirs| && root == PathOf(dirs, k)
    && WellFormed(before) && WellFormed(now) && IsDir(now, root)
    && Extends(before, now) && Listed(now, dirs, k) && now == Grown(before, dirs, k)
    && (forall j | 0 <= j < k :: Clear(before, dirs, j))
    && (now == before || (root !in before && Bare(now, root)))
  }

  lemma Passed(before: Tables, now: Tables, dirs: seq<string>, k: nat, root: string)
    requires OnTheWay(before, now, dirs, k, root) && k < |dirs| && IsDir(now, Child(root, dirs[k]))
    ensures OnTheWay(before, now, dirs, k + 1, Child(root, dirs[k]))
  {
    assert Plain(dirs[k]);
    assert now == before;
  }

  lemma Blocked(before: Tables, now: Tables, dirs: seq<string>, k: nat, root: string)
    requires OnTheWay(before, now, dirs, k, root) && k < |dirs|
    requires Child(root, dirs[k]) in now && !IsDir(now, Child(root, dirs[k]))
    ensures now == before && !NothingInTheWay(before, dirs)
  {
    assert Plain(dirs[k]);
    assert PathOf(dirs, k + 1) == Child(root, dirs[k]);
    assert now == before && !Clear(before, dirs, k);
  }

  lemma Created(before: Tables, now: Tables, dirs: seq<string>, k: nat, root: string)
    requires OnTheWay(before, now, dirs, k, root) && k < |dirs| && Child(root, dirs[k]) !in now
    ensures OnTheWay(before, WithDir(now, root, dirs[k]), dirs, k + 1, Child(root, dirs[k]))
  {
    var dir, after, path := dirs[k], WithDir(now, root, dirs[k]), Child(root, dirs[k]);
    assert Plain(dir);
    WithDirWellFormed(now, root, dir);
    CreatedExtends(before, now, root, dir);
    CreatedListed(now, dirs, k);
    CreatedGrown(before, now, dirs, k);
    CreatedClear(before, now, dirs, k);
    assert path == PathOf(dirs, k + 1) && IsDir(after, path);
  }

  lemma CreatedExtends(before: Tables, now: Tables, root: string, dir: string)
    requires Extends(before, now) && root in now && Child(root, dir) !in now
    ensures Extends(before, WithDir(now, root, dir)) && Child(root, dir) !in before
  {
    WithDirExtends(now, root, dir);
    ExtendsFurther(before, now, WithDir(now, root, dir));
  }

  lemma CreatedClear(before: Tables, now: Tables, dirs: seq<string>, k: nat)
    requires k < |dirs| && Extends(before, now) && PathOf(dirs, k + 1) !in now
    requires forall j | 0 <= j < k :: Clear(before, dirs, j)
    ensures forall j | 0 <= j < k + 1 :: Clear(before, dirs, j)
  {
  }

  lemma CreatedGrown(before: Tables, now: Tables, dirs: seq<string>, k: nat)
    requires k < |dirs| && now == Grown(before, dirs, k) && PathOf(dirs, k) in now && PathOf(dirs, k + 1) !in now
    ensures Grown(before, dirs, k + 1) == WithDir(now, PathOf(dirs, k), dirs[k])
  {
  }

  lemma CreatedListed(now: Tables, dirs: seq<string>, k: nat)
    requires k < |dirs| && Listed(now, dirs, k) && IsDir(now, PathOf(dirs, k)) && PathOf(dirs, k + 1) !in now
    ensures Listed(WithDir(now, PathOf(dirs, k), dirs[k]), dirs, k + 1)
  {
    var after := WithDir(now, PathOf(dirs, k), dirs[k]);
    WithDirExtends(now, PathOf(dirs, k), dirs[k]);
    ExtendsListed(now, after, dirs, k);
    assert ListedAt(after, dirs, k);
  }

  lemma WithDirExtends(tables: Tables, root: string, dir: string)
    requires root in tables && Child(root, dir) !in tables
    ensures Extends(tables, WithDir(tables, root, dir))
  {
  }

  lemma ExtendsFurther(a: Tables, b: Tables, c: Tables)
    requires Extends(a, b) && Extends(b, c)
    ensures Extends(a, c)
  {
    forall t | t in a ensures t in c && SameOrMore(a[t], c[t]) { assert t in b; }
  }

  lemma ExtendsListed(before: Tables, after: Tables, dirs: seq<string>, k: nat)
    requires Extends(before, after) && k <= |dirs| && Listed(before, dirs, k)
    ensures Listed(after, dirs, k)
  {
    forall j | 0 <= j < k ensures ListedAt(after, dirs, j) { assert ListedAt(before, dirs, j); }
  }
}
