/** src/integrity.js: safe paths, the SHA-256 index of a bundle, and its verification. */
module Integrity {
  import opened JsText
  import opened Json
  import opened Sorting
  import opened Splitting

  /** What a directory entry is; the children of a directory come in readdir order. */
  datatype Node = Dir(children: seq<(string, Node)>) | File(bytes: seq<Byte>) | Symlink | Special

  type Hash = seq<Byte> -> string

  const MAX_FILES := 1000
  const MAX_FILE_BYTES := 25 * 1024 * 1024
  const MAX_TOTAL_BYTES := 100 * 1024 * 1024
  const MUTABLE_OUTPUTS: set<string> := {"manifest.json", "replay.json", "comparison.json"}

  // ---------------------------------------------------------------------------------------
  // normalizeBundlePath and resolveInside, src/integrity.js:20-40

  /** `value.replaceAll("\\", "/")` */
  function ForwardSlashes(value: string): (r: string)
    ensures |r| == |value| && '\\' !in r
    ensures forall i :: 0 <= i < |value| ==> r[i] == if value[i] == '\\' then '/' else value[i]
  {
    seq(|value|, i requires 0 <= i < |value| => if value[i] == '\\' then '/' else value[i])
  }

  predicate IsLetter(c: char) { 'A' <= c <= 'Z' || 'a' <= c <= 'z' }

  predicate HasDrive(path: string) { |path| >= 2 && IsLetter(path[0]) && path[1] == ':' }

  predicate SafePart(part: string) { part != "" && part != "." && part != ".." }

  function Normalize(value: string): Option<string> {
    var normalized := ForwardSlashes(value);
    if normalized == "" || normalized[0] == '/' || HasDrive(normalized) then None
    else if exists part :: part in Split(normalized, '/') && !SafePart(part) then None
    else Some(normalized)
  }

  /** path.resolve: empty and `.` parts vanish, `..` steps up. */
  function Resolve(base: seq<string>, parts: seq<string>): seq<string>
    decreases |parts|
  {
    if parts == [] then base
    else if parts[0] == "" || parts[0] == "." then Resolve(base, parts[1..])
    else if parts[0] == ".." then Resolve(if base == [] then [] else base[..|base| - 1], parts[1..])
    else Resolve(base + [parts[0]], parts[1..])
  }

  /**
   A path is accepted exactly when, its backslashes turned round, it is proper names joined by slashes and
   does not begin like a drive.
   */
  lemma NormalizeExactly(value: string, path: string)
    ensures Normalize(value) == Some(path) <==>
      && |path| == |value| && (forall i :: 0 <= i < |value| ==> path[i] == if value[i] == '\\' then '/' else value[i])
      && !(|path| >= 2 && ('A' <= path[0] <= 'Z' || 'a' <= path[0] <= 'z') && path[1] == ':')
      && exists parts: seq<string> ::
           && parts != [] && path == Join(parts, '/')
           && forall p :: p in parts ==> p !in {"", ".", ".."} && '/' !in p
  {
    hide Join, Split;
    if Normalize(value) == Some(path) {
      var parts := Split(path, '/');
      JoinSplit(path, '/');
      assert forall p :: p in parts ==> SafePart(p) && '/' !in p;
    }
    if parts: seq<string> :|
      parts != [] && path == Join(parts, '/') && (forall p :: p in parts ==> p !in {"", ".", ".."} && '/' !in p)
    {
      assert parts[0] in parts;
      SplitJoin(parts, '/');
      JoinStarts(parts, '/');
      if |path| == |value| && forall i :: 0 <= i < |value| ==> path[i] == if value[i] == '\\' then '/' else value[i] {
        assert ForwardSlashes(value) == path;
      }
    }
  }

  /** The text of an absolute path below the file-system root. */
  function Absolute(parts: seq<string>): string {
    if parts == [] then "" else Absolute(parts[..|parts| - 1]) + "/" + parts[|parts| - 1]
  }

  function ResolveInside(root: seq<string>, relative: string): Option<seq<string>> {
    var safe := Normalize(relative);
    if safe.None? then None
    else
      var target := Resolve(root, Split(safe.value, '/'));
      if Absolute(target) != Absolute(root) && !(Absolute(root) + "/" <= Absolute(target)) then None else Some(target)
  }

  /** One part: `.` and empty parts stay, `..` steps up and stops at the root, a name steps down. */
  lemma ResolveOne(base: seq<string>, name: string)
    requires SafePart(name)
    ensures Resolve(base, []) == Resolve(base, [""]) == Resolve(base, ["."]) == base
    ensures Resolve(base + [name], [".."]) == base && Resolve([], [".."]) == []
    ensures Resolve(base, [name]) == base + [name]
  {
    assert [name][1..] == [] && [""][1..] == [] && ["."][1..] == [] && [".."][1..] == [];
    assert (base + [name])[..|base|] == base;
  }

  lemma ResolveHead(base: seq<string>, parts: seq<string>)
    requires parts != []
    ensures Resolve(base, parts) == Resolve(Resolve(base, [parts[0]]), parts[1..])
  {
    assert [parts[0]][1..] == [];
  }

  /** Resolving goes part by part. */
  lemma {:induction false} ResolveAppend(base: seq<string>, a: seq<string>, b: seq<string>)
    ensures Resolve(base, a + b) == Resolve(Resolve(base, a), b)
    decreases |a|
  {
    hide Resolve;
    if a == [] {
      assert a + b == b;
      assert Resolve(base, []) == base by { ResolveOne(base, "x"); }
    } else {
      ResolveHead(base, a);
      ResolveHead(base, a + b);
      assert (a + b)[1..] == a[1..] + b && (a + b)[0] == a[0];
      ResolveAppend(Resolve(base, [a[0]]), a[1..], b);
    }
  }

  lemma {:induction false} ResolveSafe(base: seq<string>, parts: seq<string>)
    requires forall p :: p in parts ==> SafePart(p)
    ensures Resolve(base, parts) == base + parts
    decreases |parts|
  {
    if parts != [] {
      assert SafePart(parts[0]);
      ResolveSafe(base + [parts[0]], parts[1..]);
      assert base + [parts[0]] + parts[1..] == base + parts;
    } else {
      assert base + parts == base;
    }
  }

  lemma {:induction false} AbsoluteBelow(base: seq<string>, parts: seq<string>)
    requires parts != []
    ensures Absolute(base) + "/" <= Absolute(base + parts)
  {
    var init, last := parts[..|parts| - 1], parts[|parts| - 1];
    assert (base + parts)[..|base + parts| - 1] == base + init;
    if |parts| == 1 {
      assert base + init == base;
    } else {
      AbsoluteBelow(base, init);
    }
  }

  /** A normalised path stays strictly inside: resolving appends its parts, and the prefix test never rejects it. */
  lemma NormalizedStaysInside(root: seq<string>, relative: string)
    ensures ResolveInside(root, relative).Some? <==> Normalize(relative).Some?
    ensures Normalize(relative).Some? ==>
      ResolveInside(root, relative) == Some(root + Split(Normalize(relative).value, '/'))
  {
    var safe := Normalize(relative);
    if safe.Some? {
      var parts := Split(safe.value, '/');
      forall p | p in parts ensures SafePart(p) { }
      ResolveSafe(root, parts);
      AbsoluteBelow(root, parts);
    }
  }

  // ---------------------------------------------------------------------------------------
  // The tree

  predicate ValidName(name: string) { SafePart(name) && '/' !in name }

  function Names(children: seq<(string, Node)>): (names: seq<string>)
    ensures |names| == |children| && forall i :: 0 <= i < |children| ==> names[i] == children[i].0
  {
    seq(|children|, i requires 0 <= i < |children| => children[i].0)
  }

  /** What any POSIX file system guarantees of its entries. */
  ghost predicate WellFormedTree(node: Node) {
    node.Dir? ==>
      && Distinct(Names(node.children))
      && forall i :: 0 <= i < |node.children| ==> ValidName(node.children[i].0) && WellFormedTree(node.children[i].1)
  }

  /** The regular files below `node`, in readdir order; None where walk throws. */
  function Walk(node: Node, path: seq<string>): Option<seq<(seq<string>, seq<Byte>)>>
    decreases node
  {
    match node
    case Dir(children) => WalkAll(children, path)
    case File(bytes) => Some([(path, bytes)])
    case _ => None
  }

  function WalkAll(children: seq<(string, Node)>, path: seq<string>): Option<seq<(seq<string>, seq<Byte>)>>
    decreases children
  {
    if children == [] then Some([])
    else
      var first := WalkEntry(children[0], path);
      var rest := WalkAll(children[1..], path);
      if first.None? || rest.None? then None else Some(first.value + rest.value)
  }

  function WalkEntry(entry: (string, Node), path: seq<string>): Option<seq<(seq<string>, seq<Byte>)>>
    decreases entry
  {
    Walk(entry.1, path + [entry.0])
  }

  function Child(children: seq<(string, Node)>, name: string): Option<Node> {
    if children == [] then None else if children[0].0 == name then Some(children[0].1) else Child(children[1..], name)
  }

  function NodeAt(node: Node, parts: seq<string>): Option<Node>
    decreases |parts|
  {
    if parts == [] then Some(node)
    else if !node.Dir? then None
    else
      var child := Child(node.children, parts[0]);
      if child.None? then None else NodeAt(child.value, parts[1..])
  }

  ghost predicate Located(node: Node, path: seq<string>, file: (seq<string>, seq<Byte>)) {
    && path <= file.0
    && NodeAt(node, file.0[|path|..]) == Some(File(file.1))
    && forall p :: p in file.0[|path|..] ==> ValidName(p)
  }

  lemma {:induction false} ChildOf(children: seq<(string, Node)>, i: nat)
    requires Distinct(Names(children)) && i < |children|
    ensures Child(children, children[i].0) == Some(children[i].1)
  {
    if i > 0 {
      assert Names(children)[0] != Names(children)[i];
      assert Names(children[1..]) == Names(children)[1..];
      ChildOf(children[1..], i - 1);
    }
  }

  /** Every walked file is found again under its own path. */
  lemma {:induction false} WalkLocates(node: Node, path: seq<string>, file: (seq<string>, seq<Byte>))
    requires WellFormedTree(node) && Walk(node, path).Some? && file in Walk(node, path).value
    ensures Located(node, path, file)
    ensures node.Dir? ==> |file.0| > |path|
    decreases node
  {
    match node
    case Dir(children) =>
      var i := WalkAllFrom(children, path, file);
      var name, child := children[i].0, children[i].1;
      WalkLocates(child, path + [name], file);
      ChildOf(children, i);
      assert file.0[|path|..][0] == name;
      assert file.0[|path|..][1..] == file.0[|path| + 1..];
    case File(bytes) =>
      assert path[|path|..] == [];
  }

  lemma {:induction false} WalkAllFrom(
    children: seq<(string, Node)>, path: seq<string>, file: (seq<string>, seq<Byte>)) returns (i: nat)
    requires WalkAll(children, path).Some? && file in WalkAll(children, path).value
    ensures i < |children| && Walk(children[i].1, path + [children[i].0]).Some?
    ensures file in Walk(children[i].1, path + [children[i].0]).value
  {
    if file in Walk(children[0].1, path + [children[0].0]).value {
      i := 0;
    } else {
      var j := WalkAllFrom(children[1..], path, file);
      i := j + 1;
    }
  }

  ghost predicate DistinctPaths(files: seq<(seq<string>, seq<Byte>)>) {
    forall i, j :: 0 <= i < j < |files| ==> files[i].0 != files[j].0
  }

  lemma {:induction false} WalkDistinct(node: Node, path: seq<string>)
    requires WellFormedTree(node) && Walk(node, path).Some?
    ensures DistinctPaths(Walk(node, path).value)
    decreases node, 2, 0
  {
    if node.Dir? { WalkAllDistinct(node, path, 0); }
  }

  lemma {:induction false} WalkAllDistinct(node: Node, path: seq<string>, k: nat)
    requires WellFormedTree(node) && node.Dir? && k <= |node.children| && WalkAll(node.children[k..], path).Some?
    ensures DistinctPaths(WalkAll(node.children[k..], path).value)
    decreases node, 1, |node.children| - k
  {
    var rest := node.children[k..];
    if rest != [] {
      assert rest[1..] == node.children[k + 1..] && rest[0] == node.children[k];
      var name, child := rest[0].0, rest[0].1;
      WalkDistinct(child, path + [name]);
      WalkAllDistinct(node, path, k + 1);
      var files, others := Walk(child, path + [name]).value, WalkAll(rest[1..], path).value;
      forall i, j | 0 <= i < |files| && 0 <= j < |others| ensures files[i].0 != others[j].0 {
        WalkLocates(child, path + [name], files[i]);
        var m := WalkAllFrom(rest[1..], path, others[j]);
        WalkLocates(rest[1..][m].1, path + [rest[1..][m].0], others[j]);
        assert files[i].0[|path|] == name && others[j].0[|path|] == rest[1..][m].0;
        assert Names(node.children)[k] != Names(node.children)[k + 1 + m];
      }
    }
  }

  // ---------------------------------------------------------------------------------------
  // walk, src/integrity.js:42-54

  function PathText(parts: seq<string>): string { Join(parts, '/') }

  function Texts(files: seq<(seq<string>, seq<Byte>)>): (texts: seq<string>)
    ensures |texts| == |files| && forall i :: 0 <= i < |files| ==> texts[i] == PathText(files[i].0)
  {
    seq(|files|, i requires 0 <= i < |files| => PathText(files[i].0))
  }

  class PathList {
    var items: seq<string>

    constructor ()
      ensures items == []
    {
      items := [];
    }
  }

  lemma {:induction false} WalkAllNext(children: seq<(string, Node)>, path: seq<string>, i: nat)
    requires i < |children|
    ensures WalkAll(children[..i + 1], path) ==
      var before, entry := WalkAll(children[..i], path), WalkEntry(children[i], path);
      if before.None? || entry.None? then None else Some(before.value + entry.value)
    decreases i
  {
    hide WalkEntry;
    if i == 0 {
      assert children[..1] == [children[0]] && children[..1][1..] == [] && children[..0] == [];
      var first := WalkEntry(children[0], path);
      if first.Some? { assert first.value + [] == [] + first.value; }
    } else {
      assert children[..i + 1][1..] == children[1..][..i] && children[..i][1..] == children[1..][..i - 1];
      assert children[1..][i - 1] == children[i];
      WalkAllNext(children[1..], path, i - 1);
      var first, middle, last :=
        WalkEntry(children[0], path), WalkAll(children[1..][..i - 1], path), WalkEntry(children[i], path);
      assert children[..i + 1][0] == children[0] && children[..i][0] == children[0];
      if first.Some? && middle.Some? && last.Some? {
        assert first.value + (middle.value + last.value) == first.value + middle.value + last.value;
      }
    }
  }

  lemma {:induction false} WalkAllPrefix(children: seq<(string, Node)>, path: seq<string>, i: nat)
    requires i <= |children| && WalkAll(children[..i], path).None?
    ensures WalkAll(children, path).None?
    decreases |children| - i
  {
    if i < |children| {
      WalkAllNext(children, path, i);
      WalkAllPrefix(children, path, i + 1);
    } else {
      assert children[..i] == children;
    }
  }

  lemma WalkCases(node: Node, path: seq<string>)
    ensures node.Dir? ==> Walk(node, path) == WalkAll(node.children, path)
    ensures node.File? ==> Walk(node, path) == Some([(path, node.bytes)])
    ensures node.Symlink? || node.Special? ==> Walk(node, path) == None
  {
  }

  lemma WalkNothing(path: seq<string>)
    ensures WalkAll([], path) == Some([])
  {
  }

  method WalkInto(node: Node, current: seq<string>, result: PathList) returns (ok: bool)
    requires node.Dir?
    modifies result
    ensures ok <==> Walk(node, current).Some?
    ensures ok ==> result.items == old(result.items) + Texts(Walk(node, current).value)
    decreases node
  {
    hide Walk, WalkAll;
    var children := node.children;
    WalkNothing(current);
    WalkCases(node, current);
    assert children[..0] == [];
    for i := 0 to |children|
      invariant WalkAll(children[..i], current).Some?
      invariant result.items == old(result.items) + Texts(WalkAll(children[..i], current).value)
    {
      var (name, child) := children[i];
      WalkAllNext(children, current, i);
      WalkCases(child, current + [name]);
      assert WalkEntry(children[i], current) == Walk(child, current + [name]);
      match child {
        case Dir(_) =>
          var inner := WalkInto(child, current + [name], result);
          if !inner {
            WalkAllPrefix(children, current, i + 1);
            return false;
          }
        case File(_) =>
          result.items := result.items + [PathText(current + [name])];
        case _ =>
          WalkAllPrefix(children, current, i + 1);
          return false;
      }
    }
    assert children[..|children|] == children;
    ok := true;
  }

  // ---------------------------------------------------------------------------------------
  // The view integrity is about: every file but the three derived outputs

  predicate IsDerived(path: string) { path in MUTABLE_OUTPUTS }

  function Indexed(paths: seq<string>): seq<string> {
    if paths == [] then []
    else Indexed(paths[..|paths| - 1]) + (if IsDerived(paths[|paths| - 1]) then [] else [paths[|paths| - 1]])
  }

  lemma {:induction false} IndexedMembers(paths: seq<string>, path: string)
    ensures path in Indexed(paths) <==> path in paths && !IsDerived(path)
  {
    hide IsDerived;
    if paths != [] {
      var init, last := paths[..|paths| - 1], paths[|paths| - 1];
      IndexedMembers(init, path);
      assert paths == init + [last];
    }
  }

  datatype View = View(paths: seq<string>, content: map<string, seq<Byte>>)

  function Content(files: seq<(seq<string>, seq<Byte>)>): map<string, seq<Byte>> {
    if files == [] then map[]
    else
      var rest, last := Content(files[..|files| - 1]), files[|files| - 1];
      if IsDerived(PathText(last.0)) then rest else rest[PathText(last.0) := last.1]
  }

  function ViewOf(tree: Node): Option<View> {
    var files := Walk(tree, []);
    if files.None? then None else Some(View(Sort(Indexed(Texts(files.value))), Content(files.value)))
  }

  /** The bytes read through a bundle path. */
  function Open(tree: Node, relative: string): Option<seq<Byte>> {
    var safe := Normalize(relative);
    if safe.None? then None
    else
      match NodeAt(tree, Split(safe.value, '/'))
      case Some(File(bytes)) => Some(bytes)
      case _ => None
  }

  lemma {:induction false} ContentKeys(files: seq<(seq<string>, seq<Byte>)>)
    ensures forall p :: p in Content(files) <==> p in Indexed(Texts(files))
  {
    hide IsDerived, PathText;
    if files != [] {
      var init := files[..|files| - 1];
      ContentKeys(init);
      assert Texts(files)[..|files| - 1] == Texts(init);
    }
  }

  lemma {:induction false} ContentOf(
    files: seq<(seq<string>, seq<Byte>)>, path: string) returns (file: (seq<string>, seq<Byte>))
    requires path in Content(files)
    ensures file in files && PathText(file.0) == path && file.1 == Content(files)[path]
  {
    var init, last := files[..|files| - 1], files[|files| - 1];
    if PathText(last.0) == path && !IsDerived(path) {
      file := last;
    } else {
      file := ContentOf(init, path);
    }
  }

  lemma SplitPathText(parts: seq<string>)
    requires parts != [] && forall p :: p in parts ==> ValidName(p)
    ensures Split(PathText(parts), '/') == parts
  {
    SplitJoin(parts, '/');
  }

  lemma WalkedParts(tree: Node, file: (seq<string>, seq<Byte>))
    requires WellFormedTree(tree) && tree.Dir? && Walk(tree, []).Some? && file in Walk(tree, []).value
    ensures Split(PathText(file.0), '/') == file.0 && NodeAt(tree, file.0) == Some(File(file.1))
    ensures forall p :: p in file.0 ==> ValidName(p)
  {
    WalkLocates(tree, [], file);
    assert file.0[0..] == file.0;
    SplitPathText(file.0);
  }

  lemma OpensViewed(tree: Node, path: string)
    requires WellFormedTree(tree) && tree.Dir? && ViewOf(tree).Some?
    requires path in ViewOf(tree).value.paths && Normalize(path) == Some(path)
    ensures path in ViewOf(tree).value.content
    ensures Open(tree, path) == Some(ViewOf(tree).value.content[path])
  {
    hide Walk, NodeAt, Content, Normalize;
    var files := Walk(tree, []).value;
    SortMembers(Indexed(Texts(files)));
    ContentKeys(files);
    var file := ContentOf(files, path);
    WalkedParts(tree, file);
  }

  lemma {:induction false} IndexedDistinct(paths: seq<string>)
    requires Distinct(paths)
    ensures Distinct(Indexed(paths))
  {
    hide IsDerived;
    if paths != [] {
      var init := paths[..|paths| - 1];
      IndexedDistinct(init);
      IndexedMembers(init, paths[|paths| - 1]);
    }
  }

  lemma ViewDistinct(tree: Node)
    requires WellFormedTree(tree) && tree.Dir? && ViewOf(tree).Some?
    ensures Distinct(ViewOf(tree).value.paths)
    ensures forall p :: p in ViewOf(tree).value.content <==> p in ViewOf(tree).value.paths
  {
    hide Walk, Content;
    var files := Walk(tree, []).value;
    WalkDistinct(tree, []);
    var texts := Texts(files);
    forall i, j | 0 <= i < j < |texts| ensures texts[i] != texts[j] {
      WalkedParts(tree, files[i]);
      WalkedParts(tree, files[j]);
    }
    IndexedDistinct(texts);
    SortMembers(Indexed(texts));
    ContentKeys(files);
  }

  // ---------------------------------------------------------------------------------------
  // buildIntegrityIndex, src/integrity.js:65-72

  /** The recorded hashes, in the order they are computed; None where a path is unsafe or cannot be read. */
  function Hashes(tree: Node, paths: seq<string>, sha: Hash): (r: Option<seq<(string, Json)>>)
    ensures r.Some? ==> |r.value| == |paths|
    ensures r.Some? ==> forall i :: 0 <= i < |paths| ==>
      r.value[i].0 == paths[i] && Open(tree, paths[i]).Some? && r.value[i].1 == Str(sha(Open(tree, paths[i]).value))
  {
    if paths == [] then Some([])
    else
      var rest, bytes := Hashes(tree, paths[..|paths| - 1], sha), Open(tree, paths[|paths| - 1]);
      if rest.None? || bytes.None? then None
      else Some(rest.value + [(paths[|paths| - 1], Str(sha(bytes.value)))])
  }

  function IndexJson(hashes: seq<(string, Json)>): Json {
    Obj([("algorithm", Str("sha256")), ("files", Obj(hashes))])
  }

  function Index(tree: Node, sha: Hash): Option<Json> {
    var view := ViewOf(tree);
    if view.None? then None
    else
      var hashes := Hashes(tree, view.value.paths, sha);
      if hashes.None? then None else Some(IndexJson(hashes.value))
  }

  lemma {:induction false} HashesPrefix(tree: Node, paths: seq<string>, sha: Hash, i: nat)
    requires i <= |paths| && Hashes(tree, paths[..i], sha).None?
    ensures Hashes(tree, paths, sha).None?
    decreases |paths| - i
  {
    if i < |paths| {
      assert paths[..i + 1][..i] == paths[..i];
      HashesPrefix(tree, paths, sha, i + 1);
    } else {
      assert paths[..i] == paths;
    }
  }

  /** `(await walk(root)).filter(...).sort()` */
  method ImmutablePaths(tree: Node) returns (paths: Option<seq<string>>)
    requires tree.Dir?
    ensures paths == if ViewOf(tree).None? then None else Some(ViewOf(tree).value.paths)
  {
    hide Walk, Content, Sort;
    var walked := new PathList();
    var ok := WalkInto(tree, [], walked);
    if !ok { return None; }
    assert walked.items == Texts(Walk(tree, []).value);
    paths := Some(Sort(Indexed(walked.items)));
  }

  method BuildIntegrityIndex(tree: Node, sha: Hash) returns (index: Option<Json>)
    requires tree.Dir?
    ensures index == Index(tree, sha)
  {
    hide Normalize, Open, Walk, Content;
    var listed := ImmutablePaths(tree);
    if listed.None? { return None; }
    var paths := listed.value;
    var hashes := [];
    for i := 0 to |paths|
      invariant Hashes(tree, paths[..i], sha) == Some(hashes)
    {
      assert paths[..i + 1][..i] == paths[..i];
      var bytes := Open(tree, paths[i]);
      if bytes.None? {
        HashesPrefix(tree, paths, sha, i + 1);
        return None;
      }
      hashes := hashes + [(paths[i], Str(sha(bytes.value)))];
    }
    assert paths[..|paths|] == paths;
    index := Some(IndexJson(hashes));
  }

  // ---------------------------------------------------------------------------------------
  // verifyIntegrity, src/integrity.js:74-107

  datatype Report = Report(fileCount: nat, totalBytes: nat)

  datatype Corruption =
    MissingIndex | UnsafePath | ForbiddenEntry | TooManyFiles | FileSetDiffers | FileTooLarge | TotalTooLarge
      | HashMismatch

  /** Object.keys of the index; the keys of a string are not modelled, no digest is a single character. */
  function IndexKeys(files: Json): seq<string> { if files.Obj? then Keys(files.members) else [] }

  predicate HeaderOk(integrity: Json) {
    && Property(integrity, "algorithm") == Some(Str("sha256"))
    && Property(integrity, "manifestCoreSha256").Some? && Truthy(Property(integrity, "manifestCoreSha256").value)
    && Property(integrity, "files").Some? && Truthy(Property(integrity, "files").value)
    && !Property(integrity, "files").value.Arr?
  }

  function NormalizeAll(keys: seq<string>): (r: Option<seq<string>>)
    ensures r.Some? <==> forall k :: k in keys ==> Normalize(k).Some?
    ensures r.Some? ==> |r.value| == |keys| && forall i :: 0 <= i < |keys| ==> Normalize(keys[i]) == Some(r.value[i])
  {
    if keys == [] then Some([])
    else
      assert keys == [keys[0]] + keys[1..];
      var first, rest := Normalize(keys[0]), NormalizeAll(keys[1..]);
      if first.None? || rest.None? then None else Some([first.value] + rest.value)
  }

  function Total(view: View, paths: seq<string>): nat
    requires forall p :: p in paths ==> p in view.content
  {
    if paths == [] then 0 else Total(view, paths[..|paths| - 1]) + |view.content[paths[|paths| - 1]]|
  }

  predicate FileOk(view: View, files: Json, path: string, sha: Hash) {
    path in view.content && |view.content[path]| <= MAX_FILE_BYTES &&
    Property(files, path) == Some(Str(sha(view.content[path])))
  }

  /** Verification, said of the view alone. */
  ghost predicate IntegrityHolds(view: Option<View>, integrity: Json, sha: Hash) {
    HeaderOk(integrity) && view.Some? &&
    var files := Property(integrity, "files").value;
    var expected := NormalizeAll(IndexKeys(files));
    && expected.Some? && Sort(expected.value) == view.value.paths
    && |view.value.paths| <= MAX_FILES
    && (forall p :: p in view.value.paths ==> FileOk(view.value, files, p, sha))
    && Total(view.value, view.value.paths) <= MAX_TOTAL_BYTES
  }

  function StrItems(texts: seq<string>): Json {
    Arr(seq(|texts|, i requires 0 <= i < |texts| => Str(texts[i])))
  }

  lemma StrItemsInjective(a: seq<string>, b: seq<string>)
    ensures Stringify(StrItems(a)) == Stringify(StrItems(b)) <==> a == b
  {
    StringifyInjective(StrItems(a), StrItems(b));
    if StrItems(a) == StrItems(b) {
      forall i | 0 <= i < |a| ensures a[i] == b[i] {
        assert StrItems(a).items[i] == StrItems(b).items[i];
      }
    }
  }

  lemma NormalizedAgain(value: string)
    requires Normalize(value).Some?
    ensures Normalize(Normalize(value).value) == Normalize(value)
    ensures Normalize(value) == Some(value) <==> '\\' !in value
  {
    hide Split, SafePart;
    var normalized := ForwardSlashes(value);
    assert ForwardSlashes(normalized) == normalized;
    assert normalized == value <==> '\\' !in value;
  }

  lemma {:induction false} TotalPrefix(view: View, paths: seq<string>, i: nat)
    requires (forall p :: p in paths ==> p in view.content) && i <= |paths|
    ensures Total(view, paths[..i]) <= Total(view, paths)
    decreases |paths|
  {
    if i == |paths| {
      assert paths[..i] == paths;
    } else {
      TotalPrefix(view, paths[..|paths| - 1], i);
      assert paths[..|paths| - 1][..i] == paths[..i];
    }
  }

  lemma TotalNothing(view: View)
    ensures Total(view, []) == 0
  {
  }

  lemma TotalNext(view: View, paths: seq<string>, i: nat)
    requires (forall p :: p in paths ==> p in view.content) && i < |paths|
    ensures Total(view, paths[..i + 1]) == Total(view, paths[..i]) + |view.content[paths[i]]|
    ensures Total(view, paths[..i + 1]) <= Total(view, paths)
  {
    assert paths[..i + 1][..i] == paths[..i];
    TotalPrefix(view, paths, i + 1);
  }

  method VerifyIntegrity(tree: Node, integrity: Json, sha: Hash) returns (r: Result<Report, Corruption>)
    requires tree.Dir? && WellFormedTree(tree)
    ensures r.Ok? <==> IntegrityHolds(ViewOf(tree), integrity, sha)
    ensures r.Ok? ==> var view := ViewOf(tree).value;
      r.value.fileCount == |view.paths| && r.value.totalBytes == Total(view, view.paths)
  {
    hide Normalize, Stringify, Walk, ViewOf, FileOk, Sort;
    if !HeaderOk(integrity) { return Err(MissingIndex); }
    var files := Property(integrity, "files").value;
    var normalized := NormalizeAll(IndexKeys(files));
    if normalized.None? { return Err(UnsafePath); }
    var expectedPaths := Sort(normalized.value);
    var listed := ImmutablePaths(tree);
    if listed.None? { return Err(ForbiddenEntry); }
    var actualPaths := listed.value;
    if |actualPaths| > MAX_FILES { return Err(TooManyFiles); }
    StrItemsInjective(actualPaths, expectedPaths);
    if Stringify(StrItems(actualPaths)) != Stringify(StrItems(expectedPaths)) { return Err(FileSetDiffers); }
    r := CheckFiles(tree, files, expectedPaths, sha);
  }

  /** The loop over the files, once the file set is known to agree. */
  method CheckFiles(
    tree: Node, files: Json, expectedPaths: seq<string>, sha: Hash) returns (r: Result<Report, Corruption>)
    requires tree.Dir? && WellFormedTree(tree) && ViewOf(tree).Some?
    requires NormalizeAll(IndexKeys(files)).Some? && Sort(NormalizeAll(IndexKeys(files)).value) == expectedPaths
    requires expectedPaths == ViewOf(tree).value.paths
    ensures var view := ViewOf(tree).value;
      && (forall p :: p in view.paths ==> p in view.content)
      && (r.Ok? <==>
           (forall p :: p in view.paths ==> FileOk(view, files, p, sha)) && Total(view, view.paths) <= MAX_TOTAL_BYTES)
      && (r.Ok? ==> r.value == Report(|view.paths|, Total(view, view.paths)))
  {
    hide Normalize, Open, ViewOf, Property, Sort, FileOk, NormalizeAll, IndexKeys, WellFormedTree, Walk, NodeAt, Total;
    ghost var view := ViewOf(tree).value;
    ViewDistinct(tree);
    TotalNothing(view);
    var totalBytes := 0;
    for i := 0 to |expectedPaths|
      invariant forall k :: 0 <= k < i ==> FileOk(view, files, expectedPaths[k], sha)
      invariant totalBytes == Total(view, expectedPaths[..i]) <= MAX_TOTAL_BYTES
    {
      var relative := expectedPaths[i];
      ExpectedOpens(tree, IndexKeys(files), relative);
      var bytes := Open(tree, relative).value;
      FileOkMeans(view, files, relative, sha);
      TotalNext(view, expectedPaths, i);
      if |bytes| > MAX_FILE_BYTES { return Err(FileTooLarge); }
      totalBytes := totalBytes + |bytes|;
      if totalBytes > MAX_TOTAL_BYTES { return Err(TotalTooLarge); }
      if Property(files, relative) != Some(Str(sha(bytes))) { return Err(HashMismatch); }
    }
    assert expectedPaths[..|expectedPaths|] == expectedPaths;
    r := Ok(Report(|expectedPaths|, totalBytes));
  }

  lemma FileOkMeans(view: View, files: Json, path: string, sha: Hash)
    requires path in view.content
    ensures FileOk(view, files, path, sha) <==>
      |view.content[path]| <= MAX_FILE_BYTES && Property(files, path) == Some(Str(sha(view.content[path])))
  {
  }

  lemma ExpectedOpens(tree: Node, keys: seq<string>, path: string)
    requires WellFormedTree(tree) && tree.Dir? && ViewOf(tree).Some?
    requires NormalizeAll(keys).Some? && Sort(NormalizeAll(keys).value) == ViewOf(tree).value.paths
    requires path in ViewOf(tree).value.paths
    ensures path in ViewOf(tree).value.content && Open(tree, path) == Some(ViewOf(tree).value.content[path])
  {
    hide Normalize, Open, ViewOf;
    SortMembers(NormalizeAll(keys).value);
    var i :| 0 <= i < |keys| && NormalizeAll(keys).value[i] == path;
    NormalizedAgain(keys[i]);
    OpensViewed(tree, path);
  }

  // ---------------------------------------------------------------------------------------
  // What verification establishes

  lemma IndexedKey(view: View, files: Json, path: string, sha: Hash)
    requires FileOk(view, files, path, sha)
    ensures path in IndexKeys(files)
  {
  }

  /** No key of a verified index is changed by normalisation: it would collide with the key it becomes. */
  lemma KeysAreNormal(view: View, files: Json, sha: Hash, k: string)
    requires Distinct(view.paths) && k in IndexKeys(files)
    requires var expected := NormalizeAll(IndexKeys(files)); expected.Some? && Sort(expected.value) == view.paths
    requires forall p :: p in view.paths ==> FileOk(view, files, p, sha)
    ensures Normalize(k) == Some(k) && k in view.paths
  {
    hide Normalize, Sort, IndexKeys;
    var keys := IndexKeys(files);
    var expected := NormalizeAll(keys).value;
    SortMembers(expected);
    var i :| 0 <= i < |keys| && keys[i] == k;
    var n := expected[i];
    assert n in view.paths && FileOk(view, files, n, sha);
    IndexedKey(view, files, n, sha);
    var j :| 0 <= j < |keys| && keys[j] == n;
    NormalizedAgain(k);
    assert expected[j] == n;
  }

  /** After successful verification the non-derived files are exactly the indexed paths, with the indexed hashes. */
  lemma VerifiedFilesAreIndexed(tree: Node, integrity: Json, sha: Hash)
    requires tree.Dir? && WellFormedTree(tree) && IntegrityHolds(ViewOf(tree), integrity, sha)
    ensures var view, files := ViewOf(tree).value, Property(integrity, "files").value;
      && (forall p :: p in IndexKeys(files) <==> p in view.content)
      && (forall p :: p in view.content ==> Property(files, p) == Some(Str(sha(view.content[p]))))
  {
    hide ViewOf, Normalize;
    var view, files := ViewOf(tree).value, Property(integrity, "files").value;
    ViewDistinct(tree);
    forall p ensures p in IndexKeys(files) <==> p in view.content {
      if p in IndexKeys(files) { KeysAreNormal(view, files, sha, p); }
      if p in view.content { assert FileOk(view, files, p, sha); }
    }
    forall p | p in view.content ensures Property(files, p) == Some(Str(sha(view.content[p]))) {
      assert FileOk(view, files, p, sha);
    }
  }

  /** A property that is there and does not convert to false. */
  predicate Present(v: Option<Json>) { v.Some? && v.value !in {Null, Bool(false), Num(0), Str("")} }

  /** The record says SHA-256, holds a core hash, and its files are no list. */
  predicate Headed(integrity: Json) {
    && Property(integrity, "algorithm") == Some(Str("sha256"))
    && Present(Property(integrity, "manifestCoreSha256"))
    && Present(Property(integrity, "files")) && !Property(integrity, "files").value.Arr?
  }

  /** The index lists exactly the files that are not derived, each under a portable path with the hash of its bytes. */
  ghost predicate ListsFiles(view: View, files: Json, sha: Hash) {
    && (forall p :: p in IndexKeys(files) <==> p in view.content)
    && forall p :: p in view.content ==> Portable(p) && Property(files, p) == Some(Str(sha(view.content[p])))
  }

  /** At most 1000 files, each of at most 25 MiB, and 100 MiB in all. */
  predicate Bounded(view: View)
    requires forall p :: p in view.paths ==> p in view.content
  {
    |view.paths| <= 1000 && (forall p :: p in view.paths ==> |view.content[p]| <= 26214400) &&
    Total(view, view.paths) <= 104857600
  }

  lemma HeadedMeans(integrity: Json)
    ensures HeaderOk(integrity) <==> Headed(integrity)
  {
    hide Property;
  }

  /**
   When verification succeeds: the tree holds nothing but directories and files, the record is one, its index
   lists exactly the files that are not derived, and the limits hold.
   */
  lemma IntegrityExactly(tree: Node, integrity: Json, sha: Hash)
    requires tree.Dir? && WellFormedTree(tree) && WellFormed(integrity)
    ensures IntegrityHolds(ViewOf(tree), integrity, sha) <==>
      && Clean(tree) && ViewOf(tree).Some? && Headed(integrity)
      && (forall p :: p in ViewOf(tree).value.paths ==> p in ViewOf(tree).value.content)
      && ListsFiles(ViewOf(tree).value, Property(integrity, "files").value, sha)
      && Bounded(ViewOf(tree).value)
  {
    hide ViewOf, WellFormedTree, Clean, Headed, HeaderOk, ListsFiles, Bounded, NormalizeAll, IndexKeys, FileOk, Sort;
    ViewedMeansClean(tree);
    HeadedMeans(integrity);
    if ViewOf(tree).Some? && Headed(integrity) {
      ViewDistinct(tree);
      assert Property(integrity, "files").Some? by { HeadedHasFiles(integrity); }
      if IntegrityHolds(ViewOf(tree), integrity, sha) { VerifiedListsFiles(tree, integrity, sha); }
      if ListsFiles(ViewOf(tree).value, Property(integrity, "files").value, sha) && Bounded(ViewOf(tree).value) {
        ListedVerifies(tree, integrity, sha);
      }
    }
  }

  lemma HeadedHasFiles(integrity: Json)
    requires Headed(integrity)
    ensures Property(integrity, "files").Some?
  {
  }

  lemma VerifiedListsFiles(tree: Node, integrity: Json, sha: Hash)
    requires tree.Dir? && WellFormedTree(tree) && IntegrityHolds(ViewOf(tree), integrity, sha)
    ensures forall p :: p in ViewOf(tree).value.paths ==> p in ViewOf(tree).value.content
    ensures ListsFiles(ViewOf(tree).value, Property(integrity, "files").value, sha) && Bounded(ViewOf(tree).value)
  {
    hide ViewOf, Normalize, WellFormedTree, Portable, Sort, Property, IndexKeys;
    var view, files := ViewOf(tree).value, Property(integrity, "files").value;
    ViewDistinct(tree);
    VerifiedFilesAreIndexed(tree, integrity, sha);
    forall p | p in view.paths ensures Portable(p) && FileOk(view, files, p, sha) {
      KeysAreNormal(view, files, sha, p);
      PortableMeansNormal(tree, p);
    }
  }

  lemma ListedVerifies(tree: Node, integrity: Json, sha: Hash)
    requires tree.Dir? && WellFormedTree(tree) && WellFormed(integrity) && ViewOf(tree).Some? && HeaderOk(integrity)
    requires forall p :: p in ViewOf(tree).value.paths ==> p in ViewOf(tree).value.content
    requires ListsFiles(ViewOf(tree).value, Property(integrity, "files").value, sha) && Bounded(ViewOf(tree).value)
    ensures IntegrityHolds(ViewOf(tree), integrity, sha)
  {
    hide ViewOf, Normalize, WellFormedTree, Portable, Sort, Property, IndexKeys, WellFormed;
    ViewDistinct(tree);
    KeysDistinct(integrity);
    ListedAsViewed(tree, IndexKeys(Property(integrity, "files").value));
  }

  lemma KeysDistinct(integrity: Json)
    requires WellFormed(integrity) && Property(integrity, "files").Some?
    ensures Distinct(IndexKeys(Property(integrity, "files").value))
  {
    MemberSmaller(integrity, "files");
  }

  lemma ListedAsViewed(tree: Node, keys: seq<string>)
    requires tree.Dir? && WellFormedTree(tree) && ViewOf(tree).Some? && Distinct(keys)
    requires forall p :: p in keys <==> p in ViewOf(tree).value.paths
    requires forall p :: p in ViewOf(tree).value.paths ==> Portable(p)
    ensures NormalizeAll(keys).Some? && Sort(NormalizeAll(keys).value) == ViewOf(tree).value.paths
  {
    hide ViewOf, Normalize, WellFormedTree, Portable, Sort;
    forall p | p in keys ensures Normalize(p) == Some(p) {
      PortableMeansNormal(tree, p);
    }
    assert NormalizeAll(keys).value == keys;
    ViewDistinct(tree);
    SameElementsSameSort(keys, ViewOf(tree).value.paths);
    SortAgainView(tree);
  }

  /** Names the index can carry: no backslash, and not read as a drive letter. */
  predicate Portable(path: string) { '\\' !in path && !HasDrive(path) }

  lemma PathStarts(parts: seq<string>)
    requires parts != [] && parts[0] != ""
    ensures PathText(parts) != "" && PathText(parts)[0] == parts[0][0]
  {
    JoinStarts(parts, '/');
  }

  lemma PathNormal(parts: seq<string>)
    requires parts != [] && forall p :: p in parts ==> ValidName(p)
    ensures Portable(PathText(parts)) <==> Normalize(PathText(parts)) == Some(PathText(parts))
  {
    hide Split, PathText;
    var path := PathText(parts);
    SplitPathText(parts);
    assert ValidName(parts[0]);
    PathStarts(parts);
    if '\\' !in path { assert ForwardSlashes(path) == path; }
    if Normalize(path) == Some(path) { NormalizedAgain(path); }
  }

  lemma ViewedPath(tree: Node, path: string) returns (parts: seq<string>)
    requires WellFormedTree(tree) && tree.Dir? && ViewOf(tree).Some? && path in ViewOf(tree).value.paths
    ensures parts != [] && (forall p :: p in parts ==> ValidName(p)) && path == PathText(parts)
  {
    hide Walk, Split, Content;
    var files := Walk(tree, []).value;
    SortMembers(Indexed(Texts(files)));
    IndexedMembers(Texts(files), path);
    var i :| 0 <= i < |files| && Texts(files)[i] == path;
    WalkedParts(tree, files[i]);
    WalkLocates(tree, [], files[i]);
    parts := files[i].0;
  }

  lemma PortableMeansNormal(tree: Node, path: string)
    requires WellFormedTree(tree) && tree.Dir? && ViewOf(tree).Some? && path in ViewOf(tree).value.paths
    ensures Portable(path) <==> Normalize(path) == Some(path)
  {
    hide ViewOf, Portable, Normalize;
    var parts := ViewedPath(tree, path);
    PathNormal(parts);
  }

  function WithCore(index: Json, core: string): Json
    requires index.Obj?
  {
    Obj(index.members + [("manifestCoreSha256", Str(core))])
  }

  predicate WithinLimits(view: View)
    requires forall p :: p in view.paths ==> p in view.content
  {
    |view.paths| <= MAX_FILES && (forall p :: p in view.paths ==> |view.content[p]| <= MAX_FILE_BYTES) &&
    Total(view, view.paths) <= MAX_TOTAL_BYTES
  }

  lemma SortAgain(xs: seq<string>)
    ensures Sort(Sort(xs)) == Sort(xs)
  {
    SortDecidesMultiset(Sort(xs), xs);
  }

  lemma CoreProperties(hashes: seq<(string, Json)>, core: string)
    ensures var integrity := WithCore(IndexJson(hashes), core);
      && Property(integrity, "algorithm") == Some(Str("sha256"))
      && Property(integrity, "files") == Some(Obj(hashes))
      && Property(integrity, "manifestCoreSha256") == Some(Str(core))
  {
    var ms := WithCore(IndexJson(hashes), core).members;
    assert Keys(ms)[0] == "algorithm" && Keys(ms)[1] == "files" && Keys(ms)[2] == "manifestCoreSha256";
    assert |"algorithm"| != |"files"| && |"algorithm"| != |"manifestCoreSha256"|;
    assert ms[1..][0].0 == "files" && ms[1..][1..][0].0 == "manifestCoreSha256";
    assert Keys(ms[1..])[1] == "manifestCoreSha256" && Keys(ms[1..])[0] == "files";
    assert Keys(ms[1..][1..])[0] == "manifestCoreSha256";
  }

  /**
   Verifying against a freshly built index succeeds exactly when walk meets no link or special
   file, every path is portable, and the limits hold.
   */
  lemma FreshIndexVerifies(tree: Node, sha: Hash, core: string)
    requires tree.Dir? && WellFormedTree(tree) && core != ""
    ensures Index(tree, sha).Some? ==> Index(tree, sha).value.Obj?
    ensures (Index(tree, sha).Some? && IntegrityHolds(ViewOf(tree), WithCore(Index(tree, sha).value, core), sha)) <==>
      (ViewOf(tree).Some? &&
        (forall p :: p in ViewOf(tree).value.paths ==> p in ViewOf(tree).value.content && Portable(p)) &&
       WithinLimits(ViewOf(tree).value))
  {
    hide ViewOf, Normalize, Open, Portable, IntegrityHolds, WellFormedTree, Property, Hashes, WithinLimits;
    if ViewOf(tree).Some? {
      var view := ViewOf(tree).value;
      ViewDistinct(tree);
      var portable := forall p :: p in view.paths ==> Portable(p);
      if portable {
        forall p | p in view.paths ensures Normalize(p) == Some(p) && Open(tree, p) == Some(view.content[p]) {
          PortableMeansNormal(tree, p);
          OpensViewed(tree, p);
        }
        ReadableHashes(tree, view.paths, sha);
      }
      if Index(tree, sha).Some? {
        var hashes := Hashes(tree, view.paths, sha).value;
        CoreProperties(hashes, core);
        FreshIndexVerifiesView(tree, view, hashes, sha, core);
      }
    }
  }

  lemma {:induction false} ReadableHashes(tree: Node, paths: seq<string>, sha: Hash)
    requires forall p :: p in paths ==> Open(tree, p).Some?
    ensures Hashes(tree, paths, sha).Some?
  {
    hide Open;
    if paths != [] { ReadableHashes(tree, paths[..|paths| - 1], sha); }
  }

  lemma FreshIndexVerifiesView(tree: Node, view: View, hashes: seq<(string, Json)>, sha: Hash, core: string)
    requires tree.Dir? && WellFormedTree(tree) && ViewOf(tree) == Some(view) && core != ""
    requires Hashes(tree, view.paths, sha) == Some(hashes)
    requires Distinct(view.paths) && forall p :: p in view.content <==> p in view.paths
    ensures IntegrityHolds(Some(view), WithCore(IndexJson(hashes), core), sha) <==>
      (forall p :: p in view.paths ==> Portable(p)) && WithinLimits(view)
  {
    hide Normalize, Open, ViewOf, Portable, Property, Hashes, Sort;
    CoreProperties(hashes, core);
    assert IndexKeys(Obj(hashes)) == view.paths;
    var integrity := WithCore(IndexJson(hashes), core);
    assert HeaderOk(integrity);
    if IntegrityHolds(Some(view), integrity, sha) {
      forall p | p in view.paths ensures Portable(p) {
        KeysAreNormal(view, Obj(hashes), sha, p);
        PortableMeansNormal(tree, p);
      }
      assert forall p :: p in view.paths ==> FileOk(view, Obj(hashes), p, sha);
    }
    if (forall p :: p in view.paths ==> Portable(p)) && WithinLimits(view) {
      PortableIndexOk(tree, view, hashes, sha);
    }
  }

  lemma PortableIndexOk(tree: Node, view: View, hashes: seq<(string, Json)>, sha: Hash)
    requires tree.Dir? && WellFormedTree(tree) && ViewOf(tree) == Some(view)
    requires Hashes(tree, view.paths, sha) == Some(hashes)
    requires Distinct(view.paths) && forall p :: p in view.content <==> p in view.paths
    requires (forall p :: p in view.paths ==> Portable(p)) && WithinLimits(view)
    ensures var expected := NormalizeAll(view.paths); expected.Some? && Sort(expected.value) == view.paths
    ensures forall p :: p in view.paths ==> FileOk(view, Obj(hashes), p, sha)
  {
    hide Normalize, Open, ViewOf, Portable, Sort, FileOk, Hashes;
    forall p | p in view.paths ensures Normalize(p) == Some(p) && FileOk(view, Obj(hashes), p, sha) {
      PortableMeansNormal(tree, p);
      OpensViewed(tree, p);
      HashRecorded(tree, view, hashes, sha, p);
    }
    assert NormalizeAll(view.paths).value == view.paths;
    SortAgainView(tree);
  }

  lemma HashRecorded(tree: Node, view: View, hashes: seq<(string, Json)>, sha: Hash, p: string)
    requires Hashes(tree, view.paths, sha) == Some(hashes) && Distinct(view.paths)
    requires p in view.paths && p in view.content && |view.content[p]| <= MAX_FILE_BYTES
    requires Open(tree, p) == Some(view.content[p])
    ensures FileOk(view, Obj(hashes), p, sha)
  {
    hide Open;
    assert Keys(hashes) == view.paths;
    var i :| 0 <= i < |hashes| && hashes[i].0 == p;
    LookupUnique(hashes, i);
  }

  lemma SortAgainView(tree: Node)
    requires ViewOf(tree).Some?
    ensures Sort(ViewOf(tree).value.paths) == ViewOf(tree).value.paths
  {
    hide Walk, Sort;
    SortAgain(Indexed(Texts(Walk(tree, []).value)));
  }

  // ---------------------------------------------------------------------------------------
  // Writing a file of the tree: writeFile of src/io.js:9-12, which creates missing directories

  /** The entry replaced in place, or added at the end. */
  function PutChild(children: seq<(string, Node)>, name: string, node: Node): seq<(string, Node)> {
    if children == [] then [(name, node)]
    else if children[0].0 == name then [(name, node)] + children[1..]
    else [children[0]] + PutChild(children[1..], name, node)
  }

  /** None where the path names a directory, a link or a special file, or leads through anything but directories. */
  function WriteAt(tree: Node, parts: seq<string>, bytes: seq<Byte>): (r: Option<Node>)
    requires tree.Dir?
    ensures r.Some? ==> r.value.Dir? && parts != []
    decreases |parts|
  {
    if parts == [] then None
    else
      var child := Child(tree.children, parts[0]);
      if |parts| == 1 then
        if child.Some? && !child.value.File? then None else Some(Dir(PutChild(tree.children, parts[0], File(bytes))))
      else if child.Some? && !child.value.Dir? then None
      else
        var inner := WriteAt(if child.Some? then child.value else Dir([]), parts[1..], bytes);
        if inner.None? then None else Some(Dir(PutChild(tree.children, parts[0], inner.value)))
  }

  /** The bytes of the regular file at a path. */
  function BytesAt(tree: Node, parts: seq<string>): Option<seq<Byte>> {
    match NodeAt(tree, parts)
    case Some(File(bytes)) => Some(bytes)
    case _ => None
  }

  lemma {:induction false} ChildAfterPut(children: seq<(string, Node)>, name: string, node: Node, n: string)
    ensures Child(PutChild(children, name, node), n) == if n == name then Some(node) else Child(children, n)
    decreases |children|
  {
    var put := PutChild(children, name, node);
    if children != [] && children[0].0 != name {
      ChildAfterPut(children[1..], name, node, n);
      assert put[1..] == PutChild(children[1..], name, node);
    } else {
      assert put[1..] == if children == [] then [] else children[1..];
    }
  }

  lemma {:induction false} PutReplaces(children: seq<(string, Node)>, name: string, node: Node, k: nat)
    requires k < |children| && children[k].0 == name && forall j :: 0 <= j < k ==> children[j].0 != name
    ensures PutChild(children, name, node) == children[k := (name, node)]
    decreases k
  {
    if k > 0 {
      var rest := children[1..];
      PutReplaces(rest, name, node, k - 1);
      assert [children[0]] + rest[k - 1 := (name, node)] == children[k := (name, node)];
    }
  }

  lemma {:induction false} PutAppends(children: seq<(string, Node)>, name: string, node: Node)
    requires forall j :: 0 <= j < |children| ==> children[j].0 != name
    ensures PutChild(children, name, node) == children + [(name, node)]
    decreases |children|
  {
    if children != [] {
      PutAppends(children[1..], name, node);
      assert [children[0]] + (children[1..] + [(name, node)]) == children + [(name, node)];
    }
  }

  /** Neither links nor special files anywhere below: walk goes through. */
  ghost predicate Clean(node: Node) {
    match node
    case Dir(children) => forall i :: 0 <= i < |children| ==> Clean(children[i].1)
    case File(_) => true
    case _ => false
  }

  lemma {:induction false} WalkClean(node: Node, path: seq<string>)
    ensures Walk(node, path).Some? <==> Clean(node)
    decreases node, 1, 0
  {
    if node.Dir? {
      WalkAllClean(node, path, 0);
      assert node.children[0..] == node.children;
    }
  }

  lemma {:induction false} WalkAllClean(node: Node, path: seq<string>, k: nat)
    requires node.Dir? && k <= |node.children|
    ensures WalkAll(node.children[k..], path).Some? <==>
      forall i :: k <= i < |node.children| ==> Clean(node.children[i].1)
    decreases node, 0, |node.children| - k
  {
    if k < |node.children| {
      var entry := node.children[k];
      assert node.children[k..][1..] == node.children[k + 1..] && node.children[k..][0] == entry;
      WalkClean(entry.1, path + [entry.0]);
      WalkAllClean(node, path, k + 1);
    }
  }

  /** Binding a name keeps a tree well formed; it stays clean as far as the old and new entry agree on that. */
  lemma PutKeeps(tree: Node, name: string, node: Node)
    requires tree.Dir? && WellFormedTree(tree) && ValidName(name) && WellFormedTree(node)
    ensures WellFormedTree(Dir(PutChild(tree.children, name, node)))
    ensures (if Child(tree.children, name).Some? then Clean(node) <==> Clean(Child(tree.children, name).value)
             else Clean(node)) ==>
      (Clean(Dir(PutChild(tree.children, name, node))) <==> Clean(tree))
  {
    hide PutChild, ValidName;
    var children, put := tree.children, PutChild(tree.children, name, node);
    if k :| 0 <= k < |children| && children[k].0 == name {
      forall j | 0 <= j < k ensures children[j].0 != name {
        assert Names(children)[j] != Names(children)[k];
      }
      PutReplaces(children, name, node, k);
      ChildOf(children, k);
      assert Names(put) == Names(children);
      if Clean(tree) && Clean(node) { assert Clean(Dir(put)); }
      if Clean(Dir(put)) {
        assert Clean(put[k].1) && forall i ::
          0 <= i < |children| && i != k ==> Clean(put[i].1) && put[i] == children[i];
      }
    } else {
      PutAppends(children, name, node);
      NoChild(children, name);
      assert Names(put) == Names(children) + [name];
      assert forall i :: 0 <= i < |children| ==> put[i] == children[i];
    }
  }

  lemma {:induction false} NoChild(children: seq<(string, Node)>, name: string)
    requires forall j :: 0 <= j < |children| ==> children[j].0 != name
    ensures Child(children, name) == None
  {
    if children != [] { NoChild(children[1..], name); }
  }

  lemma {:induction false} ChildWellFormed(children: seq<(string, Node)>, name: string)
    requires Child(children, name).Some?
    ensures exists i :: 0 <= i < |children| && children[i] == (name, Child(children, name).value)
  {
    if children[0].0 != name {
      ChildWellFormed(children[1..], name);
      var i :| 0 <= i < |children[1..]| && children[1..][i] == (name, Child(children, name).value);
      assert children[i + 1] == children[1..][i];
    }
  }

  lemma {:induction false} WriteKeeps(tree: Node, parts: seq<string>, bytes: seq<Byte>)
    requires tree.Dir? && WellFormedTree(tree) && (forall p :: p in parts ==> ValidName(p)) &&
      WriteAt(tree, parts, bytes).Some?
    ensures WellFormedTree(WriteAt(tree, parts, bytes).value)
    ensures Clean(WriteAt(tree, parts, bytes).value) <==> Clean(tree)
    decreases |parts|
  {
    hide PutChild, ValidName;
    var name, child := parts[0], Child(tree.children, parts[0]);
    if child.Some? { ChildWellFormed(tree.children, name); }
    if |parts| == 1 {
      PutKeeps(tree, name, File(bytes));
    } else {
      var inner := if child.Some? then child.value else Dir([]);
      WriteKeeps(inner, parts[1..], bytes);
      PutKeeps(tree, name, WriteAt(inner, parts[1..], bytes).value);
    }
  }

  lemma NothingBelow(parts: seq<string>)
    ensures BytesAt(Dir([]), parts) == None
  {
  }

  lemma BytesBelow(tree: Node, parts: seq<string>)
    requires tree.Dir?
    ensures parts == [] ==> BytesAt(tree, parts) == None
    ensures parts != [] && Child(tree.children, parts[0]).None? ==> BytesAt(tree, parts) == None
    ensures parts != [] && Child(tree.children, parts[0]).Some? ==>
      BytesAt(tree, parts) == BytesAt(Child(tree.children, parts[0]).value, parts[1..])
  {
  }

  /** Files of a well-formed tree have valid names. */
  lemma {:induction false} BytesNames(tree: Node, parts: seq<string>)
    requires WellFormedTree(tree) && BytesAt(tree, parts).Some?
    ensures forall p :: p in parts ==> ValidName(p)
    decreases |parts|
  {
    hide ValidName;
    if parts != [] {
      BytesBelow(tree, parts);
      ChildWellFormed(tree.children, parts[0]);
      BytesNames(Child(tree.children, parts[0]).value, parts[1..]);
      assert parts == [parts[0]] + parts[1..];
    }
  }

  /** After a write the path holds the new bytes, and every other file what it held before. */
  lemma {:induction false} BytesAfterWrite(tree: Node, parts: seq<string>, bytes: seq<Byte>, other: seq<string>)
    requires tree.Dir? && WriteAt(tree, parts, bytes).Some?
    ensures BytesAt(WriteAt(tree, parts, bytes).value, other) == if other == parts then Some(bytes)
      else BytesAt(tree, other)
    decreases |parts|
  {
    hide PutChild, BytesAt;
    var after := WriteAt(tree, parts, bytes).value;
    BytesBelow(tree, other);
    BytesBelow(after, other);
    if other != [] {
      var name, child := parts[0], Child(tree.children, parts[0]);
      var inner := if child.Some? then child.value else Dir([]);
      ChildAfterPut(tree.children, name, if |parts| == 1 then File(bytes)
        else WriteAt(inner, parts[1..], bytes).value, other[0]);
      if other[0] == name {
        assert other == [name] + other[1..] && parts == [name] + parts[1..];
        if |parts| == 1 {
          FileBelow(bytes, other[1..]);
          if child.Some? { FileBelow(child.value.bytes, other[1..]); }
        } else {
          BytesAfterWrite(inner, parts[1..], bytes, other[1..]);
          NothingBelow(other[1..]);
        }
      }
    }
  }

  lemma FileBelow(bytes: seq<Byte>, parts: seq<string>)
    ensures BytesAt(File(bytes), parts) == if parts == [] then Some(bytes) else None
  {
  }

  // ---------------------------------------------------------------------------------------
  // The view as a function of the files

  lemma {:induction false} WalkHas(node: Node, path: seq<string>, parts: seq<string>, bytes: seq<Byte>)
    requires Walk(node, path).Some? && BytesAt(node, parts) == Some(bytes)
    ensures (path + parts, bytes) in Walk(node, path).value
    decreases |parts|, 0, 0
  {
    if parts == [] {
      assert path + parts == path;
      assert Walk(node, path).value[0] == (path, bytes);
    } else {
      WalkAllHas(node.children, path, parts, bytes);
    }
  }

  lemma {:induction false} WalkAllHas(
    children: seq<(string, Node)>, path: seq<string>, parts: seq<string>, bytes: seq<Byte>)
    requires WalkAll(children, path).Some? && parts != []
    requires Child(children, parts[0]).Some? && BytesAt(Child(children, parts[0]).value, parts[1..]) == Some(bytes)
    ensures (path + parts, bytes) in WalkAll(children, path).value
    decreases |parts| - 1, 1, |children|
  {
    if children[0].0 == parts[0] {
      WalkHas(children[0].1, path + [parts[0]], parts[1..], bytes);
      assert path + [parts[0]] + parts[1..] == path + parts;
      assert WalkEntry(children[0], path) == Walk(children[0].1, path + [parts[0]]);
    } else {
      WalkAllHas(children[1..], path, parts, bytes);
    }
  }

  lemma ContentHasBytes(tree: Node, path: string)
    requires tree.Dir? && WellFormedTree(tree) && Walk(tree, []).Some? && path in Content(Walk(tree, []).value)
    ensures !IsDerived(path) && BytesAt(tree, Split(path, '/')) == Some(Content(Walk(tree, []).value)[path])
  {
    hide Walk, Content, IsDerived, NodeAt, Split;
    var files := Walk(tree, []).value;
    ContentKeys(files);
    IndexedMembers(Texts(files), path);
    var file := ContentOf(files, path);
    WalkedParts(tree, file);
  }

  lemma BytesAreContent(tree: Node, path: string)
    requires Walk(tree, []).Some? && !IsDerived(path) && BytesAt(tree, Split(path, '/')).Some?
    ensures path in Content(Walk(tree, []).value)
  {
    hide Walk, Content, IsDerived, BytesAt, Split;
    var files, parts := Walk(tree, []).value, Split(path, '/');
    WalkHas(tree, [], parts, BytesAt(tree, parts).value);
    assert [] + parts == parts;
    var i :| 0 <= i < |files| && files[i] == (parts, BytesAt(tree, parts).value);
    JoinSplit(path, '/');
    assert Texts(files)[i] == path;
    IndexedMembers(Texts(files), path);
    ContentKeys(files);
  }

  /** The view holds exactly the regular files that are not derived outputs, with their bytes. */
  lemma ContentIsBytes(tree: Node, path: string)
    requires tree.Dir? && WellFormedTree(tree) && ViewOf(tree).Some?
    ensures path in ViewOf(tree).value.content <==> !IsDerived(path) && BytesAt(tree, Split(path, '/')).Some?
    ensures path in ViewOf(tree).value.content ==>
      BytesAt(tree, Split(path, '/')) == Some(ViewOf(tree).value.content[path])
  {
    hide Walk, Content, IsDerived, BytesAt, Split, Sort, WellFormedTree;
    if path in ViewOf(tree).value.content { ContentHasBytes(tree, path); }
    if !IsDerived(path) && BytesAt(tree, Split(path, '/')).Some? { BytesAreContent(tree, path); }
  }

  /** Trees with the same content have the same view. */
  lemma SameContentSameView(tree: Node, tree': Node)
    requires tree.Dir? && WellFormedTree(tree) && ViewOf(tree).Some?
    requires tree'.Dir? && WellFormedTree(tree') && ViewOf(tree').Some?
    requires ViewOf(tree).value.content == ViewOf(tree').value.content
    ensures ViewOf(tree) == ViewOf(tree')
  {
    hide ViewOf, Sort;
    ViewDistinct(tree);
    ViewDistinct(tree');
    SameElementsSameSort(ViewOf(tree).value.paths, ViewOf(tree').value.paths);
    SortAgainView(tree);
    SortAgainView(tree');
  }

  lemma ViewedMeansClean(tree: Node)
    ensures ViewOf(tree).Some? <==> Clean(tree)
  {
    hide Walk;
    WalkClean(tree, []);
  }

  /** A write changes the verified view in the one file written, and a derived output not even there. */
  lemma WriteChangesOneFile(tree: Node, parts: seq<string>, bytes: seq<Byte>)
    requires tree.Dir? && WellFormedTree(tree) && (forall p :: p in parts ==> ValidName(p)) &&
      WriteAt(tree, parts, bytes).Some?
    ensures WellFormedTree(WriteAt(tree, parts, bytes).value)
    ensures ViewOf(WriteAt(tree, parts, bytes).value).Some? <==> ViewOf(tree).Some?
    ensures ViewOf(tree).Some? ==>
      ViewOf(WriteAt(tree, parts, bytes).value).value.content ==
        var content := ViewOf(tree).value.content;
        if IsDerived(PathText(parts)) then content else content[PathText(parts) := bytes]
  {
    hide ViewOf, WriteAt, ValidName, IsDerived;
    var after := WriteAt(tree, parts, bytes).value;
    WriteKeeps(tree, parts, bytes);
    ViewedMeansClean(tree);
    ViewedMeansClean(after);
    if ViewOf(tree).Some? {
      var content := ViewOf(tree).value.content;
      var expected := if IsDerived(PathText(parts)) then content else content[PathText(parts) := bytes];
      var actual := ViewOf(after).value.content;
      forall path ensures path in actual <==> path in expected
        ensures path in actual ==> actual[path] == expected[path]
      {
        ContentIsBytes(tree, path);
        ContentIsBytes(after, path);
        BytesAfterWrite(tree, parts, bytes, Split(path, '/'));
        SplitsTo(path, parts);
      }
    }
  }

  lemma SplitsTo(path: string, parts: seq<string>)
    requires parts != [] && forall p :: p in parts ==> ValidName(p)
    ensures Split(path, '/') == parts <==> path == PathText(parts)
  {
    hide ValidName, Split;
    ValidNamesSplit(parts);
    JoinSplit(path, '/');
  }

  lemma ValidNamesSplit(parts: seq<string>)
    requires parts != [] && forall p :: p in parts ==> ValidName(p)
    ensures Split(PathText(parts), '/') == parts
  {
    SplitPathText(parts);
  }

  /** The top-level file of that name. */
  function FileAt(tree: Node, name: string): Option<seq<Byte>>
    requires tree.Dir?
  {
    var child := Child(tree.children, name);
    if child.Some? && child.value.File? then Some(child.value.bytes) else None
  }

  lemma HereBytes(node: Node)
    ensures BytesAt(node, []) == if node.File? then Some(node.bytes) else None
  {
  }

  lemma FileAtIsBytes(tree: Node, name: string)
    requires tree.Dir?
    ensures FileAt(tree, name) == BytesAt(tree, [name])
  {
    hide BytesAt;
    BytesBelow(tree, [name]);
    assert [name][1..] == [];
    if Child(tree.children, name).Some? { HereBytes(Child(tree.children, name).value); }
  }

  /** A top-level file that is not a derived output is what the view says it is. */
  lemma FileAtIsViewed(tree: Node, name: string)
    requires tree.Dir? && WellFormedTree(tree) && ViewOf(tree).Some? && ValidName(name) && !IsDerived(name)
    ensures FileAt(tree, name) == if name in ViewOf(tree).value.content then Some(ViewOf(tree).value.content[name])
      else None
  {
    hide ViewOf, IsDerived;
    SplitSingle(name, '/');
    ContentIsBytes(tree, name);
    BytesBelow(tree, [name]);
    if Child(tree.children, name).Some? { HereBytes(Child(tree.children, name).value); }
  }

  // ---------------------------------------------------------------------------------------
  // The three derived outputs

  function WriteTop(tree: Node, name: string, bytes: seq<Byte>): Node
    requires tree.Dir?
  {
    Dir(PutChild(tree.children, name, File(bytes)))
  }

  /** The name is free or a regular file. */
  predicate Writable(tree: Node, name: string)
    requires tree.Dir?
  {
    var child := Child(tree.children, name);
    child.Some? ==> child.value.File?
  }

  lemma MutableNamesValid(name: string)
    requires name in MUTABLE_OUTPUTS
    ensures ValidName(name)
  {
  }

  /** Whatever is written to the derived outputs, the verified view of the bundle stays what it was. */
  lemma DerivedOutputsAreInvisible(tree: Node, name: string, bytes: seq<Byte>)
    requires tree.Dir? && WellFormedTree(tree) && name in MUTABLE_OUTPUTS && Writable(tree, name)
    ensures WriteAt(tree, [name], bytes) == Some(WriteTop(tree, name, bytes))
    ensures WellFormedTree(WriteTop(tree, name, bytes))
    ensures ViewOf(WriteTop(tree, name, bytes)) == ViewOf(tree)
    ensures forall n ::
      Child(WriteTop(tree, name, bytes).children, n) == if n == name then Some(File(bytes)) else Child(tree.children, n)
  {
    hide ViewOf, PutChild, WellFormedTree, ValidName;
    MutableNamesValid(name);
    forall n
      ensures Child(WriteTop(tree, name, bytes).children, n) == if n == name then Some(File(bytes))
        else Child(tree.children, n) {
      ChildAfterPut(tree.children, name, File(bytes), n);
    }
    WriteChangesOneFile(tree, [name], bytes);
    if ViewOf(tree).Some? { SameContentSameView(tree, WriteTop(tree, name, bytes)); }
  }

  // ---------------------------------------------------------------------------------------
  // Names the index cannot carry

  const TWIN_NAME := "a\\b"

  /** Two files, one of them named with a backslash where the other has a directory. */
  function Twins(): Node { Dir([(TWIN_NAME, File([1])), ("a", Dir([("b", File([]))]))]) }

  lemma PairChild(first: (string, Node), second: (string, Node), name: string)
    ensures Child([first, second], name) ==
      if name == first.0 then Some(first.1) else if name == second.0 then Some(second.1) else None
  {
    var pair := [first, second];
    assert pair[1..] == [second] && [second][1..] == [];
    assert Child([second], name) == if name == second.0 then Some(second.1) else None;
  }

  lemma TwinsChild(name: string)
    ensures TWIN_NAME != "a"
    ensures Child(Twins().children, name) ==
      if name == TWIN_NAME then Some(File([1])) else if name == "a" then Some(Dir([("b", File([]))])) else None
  {
    hide Child;
    assert |TWIN_NAME| == 3 && |"a"| == 1;
    PairChild(Twins().children[0], Twins().children[1], name);
  }

  lemma TwinsBytes(parts: seq<string>)
    ensures BytesAt(Twins(), parts) == if parts == [TWIN_NAME] then Some([1]) else if parts == ["a", "b"] then Some([])
      else None
  {
    hide BytesAt, Child;
    BytesBelow(Twins(), parts);
    TwinsChild("a");
    if parts != [] {
      assert parts == [parts[0]] + parts[1..];
      TwinsChild(parts[0]);
      FileBelow([1], parts[1..]);
      SingleFile("b", [], parts[1..]);
      assert parts[1..] == ["b"] ==> parts == [parts[0], "b"];
    }
  }

  lemma SingleFile(name: string, bytes: seq<Byte>, parts: seq<string>)
    ensures BytesAt(Dir([(name, File(bytes))]), parts) == if parts == [name] then Some(bytes) else None
  {
    hide BytesAt;
    var children := [(name, File(bytes))];
    BytesBelow(Dir(children), parts);
    if parts != [] {
      assert parts == [parts[0]] + parts[1..] && children[1..] == [];
      FileBelow(bytes, parts[1..]);
    }
  }

  lemma TwinsNames()
    ensures ValidName(TWIN_NAME) && ValidName("a") && ValidName("b")
    ensures TWIN_NAME != "a" && PathText([TWIN_NAME]) == TWIN_NAME && PathText(["a", "b"]) == "a/b"
    ensures !IsDerived(TWIN_NAME)
  {
    assert |TWIN_NAME| == 3 && |"replay.json"| == 11 && |"manifest.json"| == 13 && |"comparison.json"| == 15;
    assert ["a", "b"][..1] == ["a"];
  }

  lemma TwinsNormal()
    ensures Normalize(TWIN_NAME) == Some("a/b") && Normalize("a/b") == Some("a/b") && Split("a/b", '/') == ["a", "b"]
  {
    hide Split;
    TwinsNames();
    ValidNamesSplit(["a", "b"]);
    assert ForwardSlashes(TWIN_NAME) == "a/b" && ForwardSlashes("a/b") == "a/b";
  }

  lemma TwinsTree()
    ensures WellFormedTree(Twins()) && ViewOf(Twins()).Some?
  {
    hide ViewOf, ValidName;
    TwinsNames();
    var inner := Dir([("b", File([]))]);
    assert WellFormedTree(inner) && Clean(inner);
    var names := Names(Twins().children);
    assert names[0] == TWIN_NAME && names[1] == "a";
    ViewedMeansClean(Twins());
  }

  /** A bundle of these two files is indexed, the second file under both names, and rejected by its own index. */
  lemma TwinsFailTheirOwnIndex(sha: Hash, core: string)
    requires core != ""
    ensures WellFormedTree(Twins()) && Index(Twins(), sha).Some? && Index(Twins(), sha).value.Obj?
    ensures !IntegrityHolds(ViewOf(Twins()), WithCore(Index(Twins(), sha).value, core), sha)
  {
    hide ViewOf, Normalize, WellFormedTree, BytesAt, Split, IntegrityHolds, IsDerived, Hashes;
    TwinsTree();
    TwinsNames();
    TwinsNormal();
    TwinsBytes(["a", "b"]);
    ViewDistinct(Twins());
    var paths := ViewOf(Twins()).value.paths;
    forall p | p in paths ensures Open(Twins(), p).Some? {
      ContentIsBytes(Twins(), p);
      TwinsBytes(Split(p, '/'));
      JoinSplit(p, '/');
      OpenIsBytes(Twins(), p, "a/b");
    }
    ReadableHashes(Twins(), paths, sha);
    ContentIsBytes(Twins(), TWIN_NAME);
    SplitSingle(TWIN_NAME, '/');
    TwinsBytes([TWIN_NAME]);
    assert TWIN_NAME in paths && !Portable(TWIN_NAME);
    FreshIndexVerifies(Twins(), sha, core);
  }

  lemma OpenIsBytes(tree: Node, path: string, normalized: string)
    requires Normalize(path) == Some(normalized)
    ensures Open(tree, path) == BytesAt(tree, Split(normalized, '/'))
  {
  }
}
