/** An abstract picture of the parts of Node's `fs` module the metadata script uses:
    the file system is a finite map from paths to nodes, and each synchronous call
    either returns a value or throws an error whose text follows Node's format. */
module NodeFs {
  import opened Wrappers

  /** What a path names: a directory with its listing (in enumeration order,
      not necessarily sorted) or a regular file with its UTF-8 text. */
  datatype Node = Directory(entries: seq<string>) | RegularFile(content: string)

  type FileSystem = map<string, Node>

  /** `path.join(dir, name)` for a name without separators. */
  function PathJoin(dir: string, name: string): string
  {
    dir + "/" + name
  }

  function NoSuchEntry(syscall: string, path: string): string
  {
    "Error: ENOENT: no such file or directory, " + syscall + " '" + path + "'"
  }

  /** `fs.readdirSync(path)`. */
  function ReadDir(fs: FileSystem, path: string): (r: Result<seq<string>>)
    ensures r.Ok? <==> path in fs && fs[path].Directory?
    ensures r.Ok? ==> r.value == fs[path].entries
  {
    if path !in fs then Err(NoSuchEntry("scandir", path))
    else match fs[path]
      case Directory(entries) => Ok(entries)
      case RegularFile(_) => Err("Error: ENOTDIR: not a directory, scandir '" + path + "'")
  }

  /** `fs.readFileSync(path, 'utf-8')`. */
  function ReadFile(fs: FileSystem, path: string): (r: Result<string>)
    ensures r.Ok? <==> path in fs && fs[path].RegularFile?
    ensures r.Ok? ==> r.value == fs[path].content
  {
    if path !in fs then Err(NoSuchEntry("open", path))
    else match fs[path]
      case RegularFile(content) => Ok(content)
      case Directory(_) => Err("Error: EISDIR: illegal operation on a directory, read")
  }

  /** The two tests made on `fs.statSync(path)`. */
  datatype Kind = IsDirectory | IsFile

  predicate HasKind(node: Node, kind: Kind)
  {
    match kind
    case IsDirectory => node.Directory?
    case IsFile => node.RegularFile?
  }

  /** `entries.filter(e => fs.statSync(path.join(dir, e)).isDirectory())` (or `isFile()`):
      the entries are stated in order and the first one that cannot be stated throws. */
  function FilterByKind(fs: FileSystem, dir: string, entries: seq<string>, kind: Kind): (r: Result<seq<string>>)
    ensures r.Ok? <==> forall e :: e in entries ==> PathJoin(dir, e) in fs
    ensures r.Ok? ==> forall e :: e in r.value <==> e in entries && HasKind(fs[PathJoin(dir, e)], kind)
    ensures r.Ok? ==> IsSubsequence(r.value, entries)
    ensures r.Ok? ==> forall e :: e in entries ==>
              multiset(r.value)[e] == if HasKind(fs[PathJoin(dir, e)], kind) then multiset(entries)[e] else 0
  {
    if |entries| == 0 then Ok([])
    else
      var path := PathJoin(dir, entries[0]);
      if path !in fs then Err(NoSuchEntry("stat", path))
      else
        var rest := FilterByKind(fs, dir, entries[1..], kind);
        assert entries == [entries[0]] + entries[1..];
        if rest.Err? then rest
        else if HasKind(fs[path], kind) then Ok([entries[0]] + rest.value)
        else rest
  }

  /** Filtering a one-entry listing: the entry is kept exactly when it has the kind. */
  lemma FilterOfOne(fs: FileSystem, dir: string, e: string, kind: Kind)
    requires PathJoin(dir, e) in fs
    ensures FilterByKind(fs, dir, [e], kind) == if HasKind(fs[PathJoin(dir, e)], kind) then Ok([e]) else Ok([])
  {
    assert [e][1..] == [];
    assert FilterByKind(fs, dir, [], kind) == Ok([]);
    assert [e][0] == e;
    assert [e] + [] == [e];
  }

  /** The error thrown by the filter is the one for the first entry that is missing. */
  lemma {:induction false} FilterByKindError(fs: FileSystem, dir: string, entries: seq<string>, kind: Kind)
    requires FilterByKind(fs, dir, entries, kind).Err?
    ensures exists k :: 0 <= k < |entries|
              && (forall i :: 0 <= i < k ==> PathJoin(dir, entries[i]) in fs)
              && PathJoin(dir, entries[k]) !in fs
              && FilterByKind(fs, dir, entries, kind).error == NoSuchEntry("stat", PathJoin(dir, entries[k]))
  {
    if PathJoin(dir, entries[0]) !in fs {
      assert PathJoin(dir, entries[0]) !in fs;
    } else {
      var tail := entries[1..];
      FilterByKindError(fs, dir, tail, kind);
      var k :| 0 <= k < |tail| && (forall i :: 0 <= i < k ==> PathJoin(dir, tail[i]) in fs)
               && PathJoin(dir, tail[k]) !in fs
               && FilterByKind(fs, dir, tail, kind).error == NoSuchEntry("stat", PathJoin(dir, tail[k]));
      assert forall i :: 0 <= i < k + 1 ==> PathJoin(dir, entries[i]) in fs by {
        forall i | 0 <= i < k + 1 ensures PathJoin(dir, entries[i]) in fs {
          if i > 0 { assert entries[i] == tail[i - 1]; }
        }
      }
      assert entries[k + 1] == tail[k];
    }
  }

  /** `a` lists some of the elements of `b`, in the order they have in `b`. */
  predicate IsSubsequence<T(==)>(a: seq<T>, b: seq<T>)
    decreases |b|
  {
    a == [] || (b != [] && ((a[0] == b[0] && IsSubsequence(a[1..], b[1..])) || IsSubsequence(a, b[1..])))
  }
}
