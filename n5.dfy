/** The N5 container as the scripts see it: a directory tree in which every
    group and dataset directory holds an `attributes.json` object. The tree
    is a map from file path to the JSON object stored there; a path that is
    not a key is a file that does not exist. */
module N5 {
  import opened Results

  /** A JSON value; numbers are integers in this model. */
  datatype Json =
    | Null
    | Bool(b: bool)
    | Int(n: int)
    | Str(s: string)
    | Arr(items: seq<Json>)
    | Obj(fields: map<string, Json>)

  /** The content of one `attributes.json`. */
  type Attributes = map<string, Json>

  /** `os.path.join(a, b)` on POSIX: an absolute `b` replaces `a`; otherwise a
      `/` is inserted unless `a` is empty or already ends with one. */
  function Join(a: string, b: string): string
  {
    if |b| > 0 && b[0] == '/' then b
    else if a == [] || a[|a| - 1] == '/' then a + b
    else a + "/" + b
  }

  /** A relative component is appended below `a`: the result starts with `a`
      and ends with `b`. */
  lemma JoinRelative(a: string, b: string)
    requires b == [] || b[0] != '/'
    ensures |Join(a, b)| >= |a| + |b|
    ensures Join(a, b)[..|a|] == a
    ensures Join(a, b)[|Join(a, b)| - |b|..] == b
  {
  }

  /** The JSON array of integers `[s[0], s[1], ...]`. */
  function IntsJson(s: seq<int>): (j: Json)
    ensures j.Arr? && |j.items| == |s|
  {
    Arr(seq(|s|, i requires 0 <= i < |s| => Int(s[i])))
  }

  /** The integers of a JSON array of integers; None for any other value. */
  function IntList(j: Json): (r: Option<seq<int>>)
    ensures r.Some? <==> j.Arr? && forall i :: 0 <= i < |j.items| ==> j.items[i].Int?
    ensures r.Some? ==> (|r.value| == |j.items| &&
                         forall i :: 0 <= i < |j.items| ==> r.value[i] == j.items[i].n)
  {
    match j
    case Arr(items) =>
      if forall i :: 0 <= i < |items| ==> items[i].Int? then
        Some(seq(|items|, i requires 0 <= i < |items| => items[i].n))
      else None
    case _ => None
  }

  lemma IntListIntsJson(s: seq<int>)
    ensures IntList(IntsJson(s)) == Some(s)
  {
    var j := IntsJson(s);
    assert forall i :: 0 <= i < |j.items| ==> j.items[i] == Int(s[i]);
    assert IntList(j).value == s;
  }

  /** The files of the container that the scripts read and write. */
  class FileSystem {
    var files: map<string, Attributes>

    constructor (initial: map<string, Attributes>)
      ensures files == initial
    {
      files := initial;
    }

    /** `os.path.isfile(path)`. */
    function IsFile(path: string): (b: bool)
      reads this
    {
      path in files
    }

    /** `read_json(path)` / `json.loads(path.read_text())`: a missing file
        raises. */
    method Read(path: string) returns (r: Result<Attributes>)
      ensures path in files ==> r == Success(files[path])
      ensures path !in files ==> r == Failure(FileNotFound(path))
    {
      if path in files {
        r := Success(files[path]);
      } else {
        r := Failure(FileNotFound(path));
      }
    }

    /** `write_json(d, path)` / `path.write_text(json.dumps(d))`: the file at
        `path` now holds `d`, and no other file changes. */
    method Write(path: string, d: Attributes)
      modifies this
      ensures files == old(files)[path := d]
    {
      files := files[path := d];
    }
  }
}
