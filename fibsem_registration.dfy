/** The bookkeeping of the FIBSEM registration script around the imaging
    calls: the undersized-file detector, the bad-section table and the file
    substitution it drives, the crop and viewport arithmetic, the export
    dataset name and interval, and the guarded merge of N5 attributes. */
module FibsemRegistration {
  import opened Results
  import opened PyStr
  import opened N5
  import opened PyDict

  // ================================================================ attributes merge

  /** The structural N5 keys that a metadata merge must never overwrite. */
  const Reserved: set<string> := {"dimensions", "dataType", "blockSize", "compression", "n5"}

  /** `attrs` without its reserved keys. */
  function SafeAttrs(attrs: Attributes): (safe: Attributes)
    ensures safe.Keys == attrs.Keys - Reserved
    ensures forall k :: k in safe ==> safe[k] == attrs[k]
  {
    map k | k in attrs && k !in Reserved :: attrs[k]
  }

  /** The "Refusing to overwrite" warning (`len(safe_attrs) < len(attrs)`) is
      printed exactly when `attrs` names a reserved key. */
  lemma RefusalWarningIff(attrs: Attributes)
    ensures |SafeAttrs(attrs)| < |attrs| <==> exists k :: k in attrs && k in Reserved
  {
    var safe := SafeAttrs(attrs);
    assert safe.Keys == attrs.Keys - Reserved;
    if k :| k in attrs && k in Reserved {
      assert k !in safe.Keys;
      assert safe.Keys < attrs.Keys;
    } else {
      assert safe.Keys == attrs.Keys;
    }
  }

  /** The directory whose `attributes.json` is updated: the object name with
      its leading and trailing `/` stripped, joined below the container root;
      the root itself when the name is None or strips to "". */
  function TargetDir(root: string, objectName: Option<string>): (dir: string)
    ensures |dir| >= |root| && dir[..|root|] == root
  {
    var name := if objectName.Some? then Strip(objectName.value, '/') else "";
    if name != "" then
      JoinRelative(root, name);
      Join(root, name)
    else root
  }

  function AttributesPath(root: string, objectName: Option<string>): string
  {
    Join(TargetDir(root, objectName), "attributes.json")
  }

  /** Slashes around the object name do not change the target. */
  lemma TargetDirIgnoresOuterSlashes(root: string, name: string)
    ensures TargetDir(root, Some(name)) == TargetDir(root, Some(Strip(name, '/')))
  {
    StripIdempotent(name, '/');
  }

  /** A name made of slashes only is as falsy as no name: the root is used. */
  lemma TargetDirFalsyName(root: string, name: string)
    requires forall i :: 0 <= i < |name| ==> name[i] == '/'
    ensures TargetDir(root, Some(name)) == root == TargetDir(root, None)
  {
    var t := RStrip(name, '/');
    assert forall j :: 0 <= j < |t| ==> t[j] == name[j];
    assert t == [];
  }

  /** The attributes file before the update; a missing file reads as `{}`. */
  function CurrentAttributes(files: map<string, Attributes>, path: string): Attributes
  {
    if path in files then files[path] else map[]
  }

  /** `d = read_json(path) or {}; d.update(safe_attrs); write_json(d, path)`. */
  function MergeInto(files: map<string, Attributes>, path: string, attrs: Attributes): map<string, Attributes>
  {
    files[path := CurrentAttributes(files, path) + SafeAttrs(attrs)]
  }

  /** The file system after `update_attributes(attrs, root, objectName)`. */
  function UpdatedFiles(files: map<string, Attributes>, attrs: Attributes, root: string,
                        objectName: Option<string>): map<string, Attributes>
  {
    MergeInto(files, AttributesPath(root, objectName), attrs)
  }

  /** The merge never touches a reserved key: each one holds its old value,
      or is still absent. Files other than the target are unchanged. */
  lemma UpdateKeepsReserved(files: map<string, Attributes>, attrs: Attributes, root: string,
                            objectName: Option<string>)
    ensures var path := AttributesPath(root, objectName);
            var before := CurrentAttributes(files, path);
            var after := UpdatedFiles(files, attrs, root, objectName);
            path in after &&
            (forall k :: k in Reserved ==>
               (k in after[path] <==> k in before) && (k in before ==> after[path][k] == before[k])) &&
            (forall p :: p != path ==> (p in after <==> p in files) && (p in files ==> after[p] == files[p]))
  {
    var path := AttributesPath(root, objectName);
    assert UpdatedFiles(files, attrs, root, objectName) == MergeInto(files, path, attrs);
    MergeKeepsReserved(files, path, attrs);
  }

  /** `UpdateKeepsReserved` for any target file. */
  lemma MergeKeepsReserved(files: map<string, Attributes>, path: string, attrs: Attributes)
    ensures var before := CurrentAttributes(files, path);
            var after := MergeInto(files, path, attrs);
            path in after &&
            (forall k :: k in Reserved ==>
               (k in after[path] <==> k in before) && (k in before ==> after[path][k] == before[k])) &&
            (forall p :: p != path ==> (p in after <==> p in files) && (p in files ==> after[p] == files[p]))
  {
  }

  /** Merge semantics of `d.update(safe_attrs)`: every non-reserved key of
      `attrs` arrives with its value, every other key keeps its old value,
      and no other key appears. */
  lemma UpdateMerges(files: map<string, Attributes>, attrs: Attributes, root: string,
                     objectName: Option<string>)
    ensures var path := AttributesPath(root, objectName);
            var before := CurrentAttributes(files, path);
            var after := UpdatedFiles(files, attrs, root, objectName)[path];
            after.Keys == before.Keys + (attrs.Keys - Reserved) &&
            (forall k :: k in attrs && k !in Reserved ==> after[k] == attrs[k]) &&
            (forall k :: k in before && (k !in attrs || k in Reserved) ==> after[k] == before[k])
  {
    var path := AttributesPath(root, objectName);
    assert UpdatedFiles(files, attrs, root, objectName) == MergeInto(files, path, attrs);
    MergeSemantics(files, path, attrs);
  }

  /** `UpdateMerges` for any target file. */
  lemma MergeSemantics(files: map<string, Attributes>, path: string, attrs: Attributes)
    ensures var before := CurrentAttributes(files, path);
            var after := MergeInto(files, path, attrs)[path];
            after.Keys == before.Keys + (attrs.Keys - Reserved) &&
            (forall k :: k in attrs && k !in Reserved ==> after[k] == attrs[k]) &&
            (forall k :: k in before && (k !in attrs || k in Reserved) ==> after[k] == before[k])
  {
    assert MergeInto(files, path, attrs)[path] == CurrentAttributes(files, path) + SafeAttrs(attrs);
  }

  /** `update_attributes` (read-modify-write of `<dir>/attributes.json`).
      Returns whether the refusal warning is printed. */
  method UpdateAttributes(fs: FileSystem, attrs: Attributes, root: string, objectName: Option<string>)
    returns (warned: bool)
    modifies fs
    ensures warned <==> exists k :: k in attrs && k in Reserved
    ensures fs.files == UpdatedFiles(old(fs.files), attrs, root, objectName)
  {
    var safe := SafeAttrs(attrs);
    warned := |safe| < |attrs|;
    RefusalWarningIff(attrs);
    var dirpath := TargetDir(root, objectName);
    var attrPath := Join(dirpath, "attributes.json");
    var d: Attributes;
    if fs.IsFile(attrPath) {
      var read := fs.Read(attrPath);
      d := read.value;
    } else {
      d := map[];
    }
    d := d + safe;
    fs.Write(attrPath, d);
  }

  // ================================================================ section catalog

  /** Smallest acceptable `.dat` size: a 1024-byte header and `nChannels`
      planes of 16-bit pixels. */
  function ExpectedSize(width: int, height: int, nChannels: int): int
  {
    1024 + width * height * nChannels * 2
  }

  /** The bad-section table after the size scan: configured entries are kept,
      and every other undersized section is added with offset -1. */
  function FlaggedSections(sizes: seq<nat>, expected: int, badSections: map<int, Json>): map<int, Json>
  {
    map k | k in badSections.Keys + (set i | 0 <= i < |sizes| && sizes[i] < expected) ::
      if k in badSections then badSections[k] else Int(-1)
  }

  /** The size scan: walks the paths with their sizes (`os.stat(path).st_size`),
      flags each undersized one with `setdefault(idx, -1)` and keeps every
      path. */
  method ScanSizes(paths: seq<string>, sizes: seq<nat>, width: int, height: int, nChannels: int,
                   badSections: map<int, Json>)
    returns (kept: seq<string>, flagged: map<int, Json>)
    requires |sizes| == |paths|
    ensures kept == paths
    ensures forall k :: k in flagged <==>
              k in badSections || (0 <= k < |sizes| && sizes[k] < ExpectedSize(width, height, nChannels))
    ensures forall k :: k in badSections ==> flagged[k] == badSections[k]
    ensures forall k :: k in flagged && k !in badSections ==> flagged[k] == Int(-1)
    ensures flagged == FlaggedSections(sizes, ExpectedSize(width, height, nChannels), badSections)
  {
    var expected := ExpectedSize(width, height, nChannels);
    kept, flagged := [], badSections;
    var idx := 0;
    while idx < |paths|
      invariant 0 <= idx <= |paths|
      invariant kept == paths[..idx]
      invariant forall k :: k in flagged <==> k in badSections || (0 <= k < idx && sizes[k] < expected)
      invariant forall k :: k in badSections ==> flagged[k] == badSections[k]
      invariant forall k :: k in flagged && k !in badSections ==> flagged[k] == Int(-1)
    {
      if sizes[idx] < expected && idx !in flagged {
        flagged := flagged[idx := Int(-1)];
      }
      kept := kept + [paths[idx]];
      idx := idx + 1;
    }
    assert kept == paths;
    assert flagged == FlaggedSections(sizes, expected, badSections);
  }

  // ================================================================ bad-section keys

  /** The items of the configured `bad_sections` object with their keys
      passed through `int()`, in iteration order; the first key that is not
      an integer raises ValueError. */
  function ParseKeys(items: seq<(string, Json)>): (r: Result<seq<(int, Json)>>)
    ensures r.Success? <==> forall i :: 0 <= i < |items| ==> ParseInt(items[i].0).Some?
    ensures r.Success? ==>
              (|r.value| == |items| &&
               forall i :: 0 <= i < |items| ==> r.value[i] == (ParseInt(items[i].0).value, items[i].1))
    decreases |items|
  {
    if items == [] then Success([])
    else
      match ParseInt(items[0].0)
      case None => Failure(ValueError(items[0].0))
      case Some(n) =>
        match ParseKeys(items[1..])
        case Failure(e) =>
          ParseKeysTailFails(items);
          Failure(e)
        case Success(rest) =>
          ParseKeysTailParses(items, rest);
          Success([(n, items[0].1)] + rest)
  }

  /** Induction step of `ParseKeys` when a later key is bad. */
  lemma ParseKeysTailFails(items: seq<(string, Json)>)
    requires |items| > 0
    requires !forall i :: 0 <= i < |items| - 1 ==> ParseInt(items[1..][i].0).Some?
    ensures !forall i :: 0 <= i < |items| ==> ParseInt(items[i].0).Some?
  {
    var j :| 0 <= j < |items| - 1 && ParseInt(items[1..][j].0).None?;
    assert items[j + 1] == items[1..][j];
  }

  /** Induction step of `ParseKeys` when the first and the later keys parse. */
  lemma ParseKeysTailParses(items: seq<(string, Json)>, rest: seq<(int, Json)>)
    requires |items| > 0 && ParseInt(items[0].0).Some?
    requires forall i :: 0 <= i < |items| - 1 ==> ParseInt(items[1..][i].0).Some?
    requires |rest| == |items| - 1 &&
             forall i :: 0 <= i < |items| - 1 ==> rest[i] == (ParseInt(items[1..][i].0).value, items[1..][i].1)
    ensures forall i :: 0 <= i < |items| ==> ParseInt(items[i].0).Some?
    ensures var r := [(ParseInt(items[0].0).value, items[0].1)] + rest;
            |r| == |items| && forall i :: 0 <= i < |items| ==> r[i] == (ParseInt(items[i].0).value, items[i].1)
  {
    assert forall j :: 1 <= j < |items| ==> items[j] == items[1..][j - 1];
  }

  /** The position of the first key that is not an integer (`|items|` when
      there is none). */
  function FirstNonIntKey(items: seq<(string, Json)>): (k: nat)
    ensures k <= |items|
    ensures forall j :: 0 <= j < k ==> ParseInt(items[j].0).Some?
    ensures k < |items| ==> ParseInt(items[k].0).None?
    decreases |items|
  {
    if items == [] || ParseInt(items[0].0).None? then 0
    else
      var k := FirstNonIntKey(items[1..]);
      assert forall j :: 1 <= j < k + 1 ==> items[j] == items[1..][j - 1];
      k + 1
  }

  /** The first key that is not an integer raises ValueError. */
  lemma {:induction false} ParseKeysFirstBad(items: seq<(string, Json)>)
    requires ParseKeys(items).Failure?
    ensures FirstNonIntKey(items) < |items| &&
            ParseKeys(items).error == ValueError(items[FirstNonIntKey(items)].0)
    decreases |items|
  {
    if ParseInt(items[0].0).Some? {
      var tail := items[1..];
      assert ParseKeys(items).error == ParseKeys(tail).error;
      ParseKeysFirstBad(tail);
      assert items[FirstNonIntKey(items)] == tail[FirstNonIntKey(tail)];
    }
  }

  /** `{int(k): v for k, v in badSecs.iteritems()}`, with the items in the
      order the dictionary yields them. */
  function ConvertBadSections(items: seq<(string, Json)>): Result<map<int, Json>>
  {
    match ParseKeys(items)
    case Failure(e) => Failure(e)
    case Success(parsed) => Success(DictOf(parsed))
  }

  /** On success, the table holds one entry per integer that some key
      denotes, with the value of the last item denoting it. */
  lemma ConvertBadSectionsEntries(items: seq<(string, Json)>)
    requires ConvertBadSections(items).Success?
    ensures var m := ConvertBadSections(items).value;
            (forall n :: n in m <==> exists i :: 0 <= i < |items| && ParseInt(items[i].0) == Some(n)) &&
            (forall i :: (0 <= i < |items| && ParseInt(items[i].0).Some? &&
                          forall j :: i < j < |items| ==> ParseInt(items[j].0) != ParseInt(items[i].0)) ==>
               ParseInt(items[i].0).value in m && m[ParseInt(items[i].0).value] == items[i].1)
  {
    ConvertBadSectionsKeys(items);
    forall i | 0 <= i < |items| && ParseInt(items[i].0).Some? &&
               (forall j :: i < j < |items| ==> ParseInt(items[j].0) != ParseInt(items[i].0))
      ensures ParseInt(items[i].0).value in ConvertBadSections(items).value
      ensures ConvertBadSections(items).value[ParseInt(items[i].0).value] == items[i].1
    {
      ConvertBadSectionsLastWins(items, i);
    }
  }

  lemma ConvertBadSectionsKeys(items: seq<(string, Json)>)
    requires ConvertBadSections(items).Success?
    ensures forall n :: n in ConvertBadSections(items).value <==>
                        exists i :: 0 <= i < |items| && ParseInt(items[i].0) == Some(n)
  {
    var parsed := ParseKeys(items).value;
    var m := DictOf(parsed);
    DictOfKeys(parsed);
    forall n ensures n in m <==> exists i :: 0 <= i < |items| && ParseInt(items[i].0) == Some(n) {
      if n in m {
        var i :| 0 <= i < |parsed| && parsed[i].0 == n;
        assert ParseInt(items[i].0) == Some(n);
      }
      if i :| 0 <= i < |items| && ParseInt(items[i].0) == Some(n) {
        assert parsed[i].0 == n;
      }
    }
  }

  lemma ConvertBadSectionsLastWins(items: seq<(string, Json)>, i: int)
    requires ConvertBadSections(items).Success?
    requires 0 <= i < |items| && ParseInt(items[i].0).Some?
    requires forall j :: i < j < |items| ==> ParseInt(items[j].0) != ParseInt(items[i].0)
    ensures ParseInt(items[i].0).value in ConvertBadSections(items).value
    ensures ConvertBadSections(items).value[ParseInt(items[i].0).value] == items[i].1
  {
    var parsed := ParseKeys(items).value;
    forall j | i < j < |parsed| ensures parsed[j].0 != parsed[i].0 {
      assert ParseInt(items[j].0) != ParseInt(items[i].0);
    }
    DictOfLastWins(parsed, i);
  }

  /** `{str(k): v for k, v in bad_sections.iteritems()}` as exported. */
  function ExportBadSections(badSections: map<int, Json>): map<string, Json>
  {
    FormatIntInjective();
    map k | k in badSections :: FormatInt(k) := badSections[k]
  }

  /** Each bad section is exported under `str(k)` with its offset, and
      nothing else is exported. */
  lemma ExportBadSectionsEntries(badSections: map<int, Json>)
    ensures var e := ExportBadSections(badSections);
            (forall k :: k in badSections ==> FormatInt(k) in e && e[FormatInt(k)] == badSections[k]) &&
            (forall s :: s in e ==> exists k :: k in badSections && s == FormatInt(k))
  {
    FormatIntInjective();
  }

  /** `items` lists the entries of the JSON object `d`, each at least once. */
  ghost predicate Enumerates(items: seq<(string, Json)>, d: map<string, Json>)
  {
    (forall i :: 0 <= i < |items| ==> items[i].0 in d && d[items[i].0] == items[i].1) &&
    (forall s :: s in d ==> exists i :: 0 <= i < |items| && items[i].0 == s)
  }

  /** The exported `badSections` object, read back with `int` keys in any
      iteration order, is the table that was exported. */
  lemma BadSectionsRoundTrip(badSections: map<int, Json>, items: seq<(string, Json)>)
    requires Enumerates(items, ExportBadSections(badSections))
    ensures ConvertBadSections(items) == Success(badSections)
  {
    forall i | 0 <= i < |items| ensures ParseInt(items[i].0).Some? {
      ExportedItemParses(badSections, items, i);
    }
    var m := ConvertBadSections(items).value;
    forall k | k in badSections ensures k in m && m[k] == badSections[k] {
      SectionRecovered(badSections, items, k);
    }
    forall n | n in m ensures n in badSections {
      NoExtraSection(badSections, items, n);
    }
    assert m == badSections;
  }

  /** Every exported key reads back as a bad section with its offset. */
  lemma ExportedItemParses(badSections: map<int, Json>, items: seq<(string, Json)>, i: int)
    requires Enumerates(items, ExportBadSections(badSections))
    requires 0 <= i < |items|
    ensures ParseInt(items[i].0).Some? && ParseInt(items[i].0).value in badSections
    ensures badSections[ParseInt(items[i].0).value] == items[i].1
  {
    ExportBadSectionsEntries(badSections);
    assert items[i].0 in ExportBadSections(badSections);
    var k :| k in badSections && items[i].0 == FormatInt(k);
    ParseFormatInt(k);
  }

  lemma SectionRecovered(badSections: map<int, Json>, items: seq<(string, Json)>, k: int)
    requires Enumerates(items, ExportBadSections(badSections))
    requires ConvertBadSections(items).Success?
    requires k in badSections
    ensures k in ConvertBadSections(items).value
    ensures ConvertBadSections(items).value[k] == badSections[k]
  {
    ExportBadSectionsEntries(badSections);
    assert FormatInt(k) in ExportBadSections(badSections);
    var i :| 0 <= i < |items| && items[i].0 == FormatInt(k);
    ParseFormatInt(k);
    var last := LastParsedAs(items, k, i);
    ExportedItemParses(badSections, items, last);
    ConvertBadSectionsEntries(items);
  }

  lemma NoExtraSection(badSections: map<int, Json>, items: seq<(string, Json)>, n: int)
    requires Enumerates(items, ExportBadSections(badSections))
    requires ConvertBadSections(items).Success?
    requires n in ConvertBadSections(items).value
    ensures n in badSections
  {
    ConvertBadSectionsEntries(items);
    var i :| 0 <= i < |items| && ParseInt(items[i].0) == Some(n);
    ExportedItemParses(badSections, items, i);
  }

  /** The last item, at or after position `i`, whose key denotes `n`. */
  function LastParsedAs(items: seq<(string, Json)>, n: int, i: nat): (j: nat)
    requires i < |items| && ParseInt(items[i].0) == Some(n)
    ensures i <= j < |items| && ParseInt(items[j].0) == Some(n)
    ensures forall j' :: j < j' < |items| ==> ParseInt(items[j'].0) != Some(n)
    decreases |items| - i
  {
    if exists j' :: i < j' < |items| && ParseInt(items[j'].0) == Some(n) then
      var j' :| i < j' < |items| && ParseInt(items[j'].0) == Some(n);
      LastParsedAs(items, n, j')
    else i
  }

  /** A key written with leading zeros comes back under another name:
      `int("007") == 7` is exported as `"7"`. */
  lemma NonCanonicalKeyRenamed()
    ensures ParseInt("007") == Some(7) && FormatInt(7) == "7"
  {
    assert TrimLeadingSpace("007") == "007";
    assert TrimTrailingSpace("007") == "007";
    assert "007"[..2] == "00" && "00"[..1] == "0" && "0"[..0] == "";
  }

  // ================================================================ substitution

  /** Python's `paths[i]`: a negative index counts from the end. */
  function PyAt(paths: seq<string>, i: int): string
    requires -|paths| <= i < |paths|
  {
    if i < 0 then paths[i + |paths|] else paths[i]
  }

  /** A JSON value that Python adds to an `int`: an integer, or a boolean,
      since `bool` is a subclass of `int`. */
  predicate IsIntLike(j: Json)
  {
    j.Int? || j.Bool?
  }

  /** The integer such a value stands for in `index + inc` (`True` is 1). */
  function IntValue(j: Json): int
    requires IsIntLike(j)
  {
    if j.Int? then j.n else if j.b then 1 else 0
  }

  /** A bad-section entry `index: inc` that the comprehension can evaluate. */
  predicate ValidEntry(n: int, index: int, inc: Json)
  {
    IsIntLike(inc) && -n <= index + IntValue(inc) < n && -n <= index < n
  }

  /** The items of `{filepaths[index]: filepaths[index + inc] for index,
      inc in bad_sections.iteritems()}`, iterating the keys in `order`. As in
      a Python 2 dict comprehension the value is evaluated before the key: an
      offset that is neither an integer nor a boolean raises TypeError, and an index or target outside
      `-len .. len-1` raises IndexError, at the first such entry. */
  function SubstitutionItems(paths: seq<string>, badSections: map<int, Json>, order: seq<int>)
    : (r: Result<seq<(string, string)>>)
    requires forall i :: 0 <= i < |order| ==> order[i] in badSections
    ensures r.Success? <==> forall i :: 0 <= i < |order| ==> ValidEntry(|paths|, order[i], badSections[order[i]])
    ensures r.Success? ==>
              (|r.value| == |order| &&
               forall i :: 0 <= i < |order| ==>
                 (ValidEntry(|paths|, order[i], badSections[order[i]]) &&
                  r.value[i] == (PyAt(paths, order[i]), PyAt(paths, order[i] + IntValue(badSections[order[i]])))))
    decreases |order|
  {
    if order == [] then Success([])
    else
      var index := order[0];
      var inc := badSections[index];
      if !IsIntLike(inc) then Failure(TypeError)
      else if !(-|paths| <= index + IntValue(inc) < |paths|) || !(-|paths| <= index < |paths|) then Failure(IndexError)
      else
        match SubstitutionItems(paths, badSections, order[1..])
        case Failure(e) => Failure(e)
        case Success(rest) => Success([(PyAt(paths, index), PyAt(paths, index + IntValue(inc)))] + rest)
  }

  /** The position of the first entry that the comprehension cannot
      evaluate (`|order|` when there is none). */
  function FirstInvalidEntry(n: int, badSections: map<int, Json>, order: seq<int>): (k: nat)
    requires forall i :: 0 <= i < |order| ==> order[i] in badSections
    ensures k <= |order|
    ensures forall j :: 0 <= j < k ==> ValidEntry(n, order[j], badSections[order[j]])
    ensures k < |order| ==> !ValidEntry(n, order[k], badSections[order[k]])
    decreases |order|
  {
    if order == [] || !ValidEntry(n, order[0], badSections[order[0]]) then 0
    else
      var k := FirstInvalidEntry(n, badSections, order[1..]);
      assert forall j :: 1 <= j < k + 1 ==> order[j] == order[1..][j - 1];
      k + 1
  }

  /** The first entry that cannot be evaluated raises: TypeError for an
      offset that is neither an integer nor a boolean, IndexError for an index out of range. */
  lemma {:induction false} SubstitutionItemsFirstBad(paths: seq<string>, badSections: map<int, Json>,
                                                     order: seq<int>)
    requires forall i :: 0 <= i < |order| ==> order[i] in badSections
    requires SubstitutionItems(paths, badSections, order).Failure?
    ensures FirstInvalidEntry(|paths|, badSections, order) < |order|
    ensures SubstitutionItems(paths, badSections, order).error ==
              if IsIntLike(badSections[order[FirstInvalidEntry(|paths|, badSections, order)]]) then IndexError
              else TypeError
    decreases |order|
  {
    if ValidEntry(|paths|, order[0], badSections[order[0]]) {
      var tail := order[1..];
      assert SubstitutionItems(paths, badSections, order).error ==
             SubstitutionItems(paths, badSections, tail).error;
      SubstitutionItemsFirstBad(paths, badSections, tail);
      assert order[FirstInvalidEntry(|paths|, badSections, order)] ==
             tail[FirstInvalidEntry(|paths|, badSections, tail)];
    }
  }

  /** The substitution table `to_replace`. */
  function ToReplace(paths: seq<string>, badSections: map<int, Json>, order: seq<int>): Result<map<string, string>>
    requires forall i :: 0 <= i < |order| ==> order[i] in badSections
  {
    match SubstitutionItems(paths, badSections, order)
    case Failure(e) => Failure(e)
    case Success(items) => Success(DictOf(items))
  }

  /** The loader's lookup `to_replace.get(filepath, filepath)`. */
  function Resolve(toReplace: map<string, string>, path: string): string
  {
    if path in toReplace then toReplace[path] else path
  }

  /** With distinct paths and non-negative section indices, the loader reads
      each bad section `i` from `filepaths[i + inc]` (Python indexing) and
      every other path from itself. */
  lemma ResolveSubstitutes(paths: seq<string>, badSections: map<int, Json>, order: seq<int>)
    requires forall i :: 0 <= i < |order| ==> order[i] in badSections
    requires forall k :: k in badSections ==> k in order
    requires forall i, j :: 0 <= i < |paths| && 0 <= j < |paths| && i != j ==> paths[i] != paths[j]
    requires forall k :: k in badSections ==> 0 <= k < |paths|
    requires ToReplace(paths, badSections, order).Success?
    ensures var m := ToReplace(paths, badSections, order).value;
            (forall k :: k in badSections ==>
               IsIntLike(badSections[k]) && -|paths| <= k + IntValue(badSections[k]) < |paths| &&
               Resolve(m, paths[k]) == PyAt(paths, k + IntValue(badSections[k]))) &&
            (forall i :: 0 <= i < |paths| && i !in badSections ==> Resolve(m, paths[i]) == paths[i])
  {
    var m := ToReplace(paths, badSections, order).value;
    forall k | k in badSections
      ensures IsIntLike(badSections[k]) && -|paths| <= k + IntValue(badSections[k]) < |paths|
      ensures Resolve(m, paths[k]) == PyAt(paths, k + IntValue(badSections[k]))
    {
      ResolveBadSection(paths, badSections, order, k);
    }
    forall i | 0 <= i < |paths| && i !in badSections ensures Resolve(m, paths[i]) == paths[i] {
      ResolveGoodSection(paths, badSections, order, i);
    }
  }

  lemma ResolveBadSection(paths: seq<string>, badSections: map<int, Json>, order: seq<int>, k: int)
    requires forall i :: 0 <= i < |order| ==> order[i] in badSections
    requires forall i, j :: 0 <= i < |paths| && 0 <= j < |paths| && i != j ==> paths[i] != paths[j]
    requires forall k :: k in badSections ==> 0 <= k < |paths|
    requires ToReplace(paths, badSections, order).Success?
    requires k in badSections && k in order
    ensures IsIntLike(badSections[k]) && -|paths| <= k + IntValue(badSections[k]) < |paths|
    ensures Resolve(ToReplace(paths, badSections, order).value, paths[k]) == PyAt(paths, k + IntValue(badSections[k]))
  {
    var items := SubstitutionItems(paths, badSections, order).value;
    var i :| 0 <= i < |order| && order[i] == k;
    var last := LastIndexOf(order, k, i);
    assert order[last] == k;
    LastEntryResolves(paths, badSections, order, items, last);
  }

  /** The last entry for a section decides where its path resolves. */
  lemma LastEntryResolves(paths: seq<string>, badSections: map<int, Json>, order: seq<int>,
                          items: seq<(string, string)>, last: nat)
    requires forall i :: 0 <= i < |order| ==> order[i] in badSections
    requires forall i, j :: 0 <= i < |paths| && 0 <= j < |paths| && i != j ==> paths[i] != paths[j]
    requires forall k :: k in badSections ==> 0 <= k < |paths|
    requires SubstitutionItems(paths, badSections, order) == Success(items)
    requires last < |order| && forall j :: last < j < |order| ==> order[j] != order[last]
    ensures ValidEntry(|paths|, order[last], badSections[order[last]])
    ensures ToReplace(paths, badSections, order).Success?
    ensures Resolve(ToReplace(paths, badSections, order).value, paths[order[last]]) ==
            PyAt(paths, order[last] + IntValue(badSections[order[last]]))
  {
    EntryAt(paths, badSections, order, items, last);
    forall j | last < j < |items| ensures items[j].0 != items[last].0 {
      DistinctSectionPaths(paths, badSections, order, items, last, j);
    }
    ResolveViaLastEntry(paths, badSections, order, items, last);
  }

  /** Entries for two different non-negative sections substitute two
      different paths. */
  lemma DistinctSectionPaths(paths: seq<string>, badSections: map<int, Json>, order: seq<int>,
                             items: seq<(string, string)>, a: int, b: int)
    requires forall i :: 0 <= i < |order| ==> order[i] in badSections
    requires forall i, j :: 0 <= i < |paths| && 0 <= j < |paths| && i != j ==> paths[i] != paths[j]
    requires forall k :: k in badSections ==> 0 <= k < |paths|
    requires SubstitutionItems(paths, badSections, order) == Success(items)
    requires 0 <= a < |order| && 0 <= b < |order| && order[a] != order[b]
    ensures items[a].0 != items[b].0
  {
    EntryAt(paths, badSections, order, items, a);
    EntryAt(paths, badSections, order, items, b);
    assert items[a].0 == paths[order[a]] && items[b].0 == paths[order[b]];
  }

  lemma ResolveGoodSection(paths: seq<string>, badSections: map<int, Json>, order: seq<int>, i: int)
    requires forall i :: 0 <= i < |order| ==> order[i] in badSections
    requires forall i, j :: 0 <= i < |paths| && 0 <= j < |paths| && i != j ==> paths[i] != paths[j]
    requires forall k :: k in badSections ==> 0 <= k < |paths|
    requires ToReplace(paths, badSections, order).Success?
    requires 0 <= i < |paths| && i !in badSections
    ensures Resolve(ToReplace(paths, badSections, order).value, paths[i]) == paths[i]
  {
    var items := SubstitutionItems(paths, badSections, order).value;
    DictOfKeys(items);
  }

  /** The last position of `k` in `s`, at or after position `i`. */
  function LastIndexOf(s: seq<int>, k: int, i: nat): (j: nat)
    requires i < |s| && s[i] == k
    ensures i <= j < |s| && s[j] == k
    ensures forall j' :: j < j' < |s| ==> s[j'] != k
    decreases |s| - i
  {
    if exists j' :: i < j' < |s| && s[j'] == k then
      var j' :| i < j' < |s| && s[j'] == k;
      LastIndexOf(s, k, j')
    else i
  }

  /** The lookup is applied once, not followed: with sections 1 and 2 both
      replaced by their predecessor, section 2 reads section 1's file, not
      section 0's. */
  lemma ResolveAppliesOnce()
    ensures var paths := ["a.dat", "b.dat", "c.dat"];
            var bad := map[1 := Int(-1), 2 := Int(-1)];
            ToReplace(paths, bad, [1, 2]) == Success(map["b.dat" := "a.dat", "c.dat" := "b.dat"]) &&
            Resolve(ToReplace(paths, bad, [1, 2]).value, "c.dat") == "b.dat"
  {
    var paths := ["a.dat", "b.dat", "c.dat"];
    var bad := map[1 := Int(-1), 2 := Int(-1)];
    assert [1, 2][..1] == [1] && [1][..0] == [];
    assert ToReplace(paths, bad, [1]) == Success(map["b.dat" := "a.dat"]);
  }

  /** A boolean offset is added as an integer: `3 + True` is 4, so section
      3 with offset `true` reads section 4's file. */
  lemma BoolOffsetSubstitutes()
    ensures var paths := ["a", "b", "c", "d", "e"];
            ToReplace(paths, map[3 := Bool(true)], [3]) == Success(map["d" := "e"])
  {
    var paths := ["a", "b", "c", "d", "e"];
    var bad := map[3 := Bool(true)];
    assert IntValue(bad[3]) == 1 && ValidEntry(|paths|, 3, bad[3]);
    assert SubstitutionItems(paths, bad, [3][1..]) == Success([]);
    assert PyAt(paths, 3) == "d" && PyAt(paths, 4) == "e";
    var r := SubstitutionItems(paths, bad, [3]);
    assert r.Success? && |r.value| == 1 && r.value[0] == ("d", "e");
    assert r.value == [("d", "e")];
  }

  /** Section 0 with offset -1 is read from the LAST file of the series:
      `filepaths[0 + -1]` wraps around instead of failing. */
  lemma FirstSectionTakesLast(paths: seq<string>, badSections: map<int, Json>, order: seq<int>, at: nat)
    requires |paths| >= 2
    requires forall i :: 0 <= i < |order| ==> order[i] in badSections
    requires at < |order| && order[at] == 0 && badSections[0] == Int(-1) && -|paths| !in badSections
    requires forall i, j :: 0 <= i < |paths| && 0 <= j < |paths| && i != j ==> paths[i] != paths[j]
    requires ToReplace(paths, badSections, order).Success?
    ensures Resolve(ToReplace(paths, badSections, order).value, paths[0]) == paths[|paths| - 1]
  {
    var items := SubstitutionItems(paths, badSections, order).value;
    var last := LastIndexOf(order, 0, at);
    FirstEntry(paths, badSections, order, items, last);
    NoLaterFirstPath(paths, badSections, order, items, last);
    ResolveViaLastEntry(paths, badSections, order, items, last);
  }

  lemma NoLaterFirstPath(paths: seq<string>, badSections: map<int, Json>, order: seq<int>,
                         items: seq<(string, string)>, last: nat)
    requires forall i :: 0 <= i < |order| ==> order[i] in badSections
    requires -|paths| !in badSections
    requires forall i, j :: 0 <= i < |paths| && 0 <= j < |paths| && i != j ==> paths[i] != paths[j]
    requires SubstitutionItems(paths, badSections, order) == Success(items)
    requires forall j :: last < j < |order| ==> order[j] != 0
    ensures forall j :: last < j < |items| ==> items[j].0 != paths[0]
  {
    forall j | last < j < |items| ensures items[j].0 != paths[0] {
      LaterEntryElsewhere(paths, badSections, order, items, j);
    }
  }

  /** An entry for any section other than 0 substitutes a path other than
      the first. */
  lemma LaterEntryElsewhere(paths: seq<string>, badSections: map<int, Json>, order: seq<int>,
                            items: seq<(string, string)>, j: int)
    requires forall i :: 0 <= i < |order| ==> order[i] in badSections
    requires -|paths| !in badSections
    requires forall i, j :: 0 <= i < |paths| && 0 <= j < |paths| && i != j ==> paths[i] != paths[j]
    requires SubstitutionItems(paths, badSections, order) == Success(items)
    requires 0 <= j < |items| && order[j] != 0
    ensures items[j].0 != paths[0]
  {
    assert order[j] in badSections;
    OtherEntryElsewhere(paths, badSections, order, items, j);
  }

  lemma FirstEntry(paths: seq<string>, badSections: map<int, Json>, order: seq<int>,
                   items: seq<(string, string)>, j: nat)
    requires |paths| >= 2
    requires forall i :: 0 <= i < |order| ==> order[i] in badSections
    requires SubstitutionItems(paths, badSections, order) == Success(items)
    requires j < |order| && order[j] == 0 && badSections[0] == Int(-1)
    ensures items[j] == (paths[0], paths[|paths| - 1])
  {
    EntryAt(paths, badSections, order, items, j);
  }

  lemma EntryAt(paths: seq<string>, badSections: map<int, Json>, order: seq<int>,
                items: seq<(string, string)>, j: nat)
    requires forall i :: 0 <= i < |order| ==> order[i] in badSections
    requires SubstitutionItems(paths, badSections, order) == Success(items)
    requires j < |order|
    ensures ValidEntry(|paths|, order[j], badSections[order[j]])
    ensures items[j] == (PyAt(paths, order[j]), PyAt(paths, order[j] + IntValue(badSections[order[j]])))
  {
  }

  /** The table maps the path of an entry that no later entry overrides to
      that entry's target. */
  lemma ResolveViaLastEntry(paths: seq<string>, badSections: map<int, Json>, order: seq<int>,
                            items: seq<(string, string)>, last: nat)
    requires forall i :: 0 <= i < |order| ==> order[i] in badSections
    requires SubstitutionItems(paths, badSections, order) == Success(items)
    requires last < |items|
    requires forall j :: last < j < |items| ==> items[j].0 != items[last].0
    ensures ToReplace(paths, badSections, order).Success?
    ensures Resolve(ToReplace(paths, badSections, order).value, items[last].0) == items[last].1
  {
    DictOfLastWins(items, last);
  }

  lemma OtherEntryElsewhere(paths: seq<string>, badSections: map<int, Json>, order: seq<int>,
                            items: seq<(string, string)>, j: int)
    requires forall i :: 0 <= i < |order| ==> order[i] in badSections
    requires forall i, j :: 0 <= i < |paths| && 0 <= j < |paths| && i != j ==> paths[i] != paths[j]
    requires SubstitutionItems(paths, badSections, order) == Success(items)
    requires 0 <= j < |order| && order[j] != 0 && order[j] != -|paths|
    ensures items[j].0 != paths[0]
  {
    var kj := order[j];
    assert ValidEntry(|paths|, kj, badSections[kj]);
    if kj < 0 {
      assert items[j].0 == paths[kj + |paths|];
    } else {
      assert items[j].0 == paths[kj];
    }
  }

  /** So an undersized first file that the configuration does not mention
      is replaced by the last file. */
  lemma UndersizedFirstSectionTakesLast(paths: seq<string>, sizes: seq<nat>, expected: int,
                                        configured: map<int, Json>, order: seq<int>, at: nat)
    requires |paths| == |sizes| >= 2
    requires sizes[0] < expected && 0 !in configured && -|paths| !in configured
    requires forall i :: 0 <= i < |order| ==> order[i] in FlaggedSections(sizes, expected, configured)
    requires at < |order| && order[at] == 0
    requires forall i, j :: 0 <= i < |paths| && 0 <= j < |paths| && i != j ==> paths[i] != paths[j]
    requires ToReplace(paths, FlaggedSections(sizes, expected, configured), order).Success?
    ensures Resolve(ToReplace(paths, FlaggedSections(sizes, expected, configured), order).value, paths[0])
            == paths[|paths| - 1]
  {
    var bad := FlaggedSections(sizes, expected, configured);
    assert 0 in bad && bad[0] == Int(-1);
    assert -|paths| !in bad;
    FirstSectionTakesLast(paths, bad, order, at);
  }

  // ================================================================ crop, viewport, export

  /** ImageJ's `Roi(x, y, width, height)`. */
  datatype Roi = Roi(x: int, y: int, width: int, height: int)

  datatype Dims = Dims(width: int, height: int)

  /** imglib2's `FinalInterval([minX, minY], [maxX, maxY])`, bounds inclusive. */
  datatype Interval = Interval(minX: int, minY: int, maxX: int, maxY: int)
  {
    predicate Contains(x: int, y: int)
    {
      minX <= x <= maxX && minY <= y <= maxY
    }
  }

  /** The working dimensions: the crop ROI's size when a ROI is configured,
      the original image size otherwise. */
  function CroppedDimensions(original: Dims, crop: Option<Roi>): Dims
  {
    if crop.Some? then Dims(crop.value.width, crop.value.height) else original
  }

  /** The region shown after registration: from the centre of the (cropped)
      image (`//` rounds down), 501 pixels each way, inclusive bounds. It lies
      inside the image exactly when both sides are at least 1001 pixels. */
  function Viewport(d: Dims): (v: Interval)
    ensures 2 * v.minX <= d.width <= 2 * v.minX + 1 && 2 * v.minY <= d.height <= 2 * v.minY + 1
    ensures v.maxX - v.minX + 1 == 501 && v.maxY - v.minY + 1 == 501
    ensures (0 <= v.minX && v.maxX < d.width && 0 <= v.minY && v.maxY < d.height) <==>
            (d.width >= 1001 && d.height >= 1001)
  {
    // Dafny's division by a positive divisor rounds down, like Python's `//`.
    var x0 := d.width / 2;
    var y0 := d.height / 2;
    Interval(x0, y0, x0 + 500, y0 + 500)
  }

  /** The export interval, over the original (uncropped) dimensions: exactly
      the pixels `0 <= x < W`, `0 <= y < H`. */
  function ExportInterval(original: Dims): (v: Interval)
    ensures forall x, y :: v.Contains(x, y) <==> 0 <= x < original.width && 0 <= y < original.height
  {
    Interval(0, 0, original.width - 1, original.height - 1)
  }

  /** `group.rstrip("/") + "/s0"`: the dataset path inside the group. */
  function DatasetName(group: string): string
  {
    RStrip(group, '/') + "/s0"
  }

  /** The dataset name is the group without its trailing slashes, then one
      slash and `s0`; so it never has a `/` right before `/s0`. */
  lemma DatasetNameShape(group: string)
    ensures var name := DatasetName(group);
            |name| >= 3 && name[|name| - 3..] == "/s0" &&
            |name| - 3 <= |group| && name[..|name| - 3] == group[..|name| - 3] &&
            (forall i :: |name| - 3 <= i < |group| ==> group[i] == '/') &&
            (|name| == 3 || name[|name| - 4] != '/')
  {
    var p := RStrip(group, '/');
    assert (p + "/s0")[..|p|] == p;
  }

  // ================================================================ export metadata

  /** The group attributes written after export. */
  function GroupMetadata(resolution: Json, unit: Json, metadata: Json): Attributes
  {
    map["downsamplingFactors" := Arr([IntsJson([1, 1, 1])]),
        "metadata" := metadata,
        "resolution" := resolution,
        "units" := Arr([unit, unit, unit])]
  }

  /** The `s0` dataset attributes written after export, given the exported
      bad-section object. */
  function DatasetMetadata(config: Json, timestamp: string, exportedBad: map<string, Json>,
                           resolution: Json, unit: Json): Attributes
  {
    map["exportConfig" := config,
        "exportTimestampUTC" := Str(timestamp),
        "badSections" := Obj(exportedBad),
        "resolution" := resolution,
        "units" := Arr([unit, unit, unit])]
  }

  /** The file system after both metadata merges, into the group's
      attributes file `groupPath` and then the dataset's `datasetPath`;
      `exportedBad` is the exported bad-section object. */
  function ExportedFiles(files: map<string, Attributes>, groupPath: string, datasetPath: string,
                         resolution: Json, unit: Json, metadata: Json, config: Json,
                         timestamp: string, exportedBad: map<string, Json>): map<string, Attributes>
  {
    var afterGroup := MergeInto(files, groupPath, GroupMetadata(resolution, unit, metadata));
    MergeInto(afterGroup, datasetPath, DatasetMetadata(config, timestamp, exportedBad, resolution, unit))
  }

  /** Neither metadata object holds a reserved key, so neither merge is
      refused and no warning is printed. */
  lemma MetadataNotReserved(resolution: Json, unit: Json, metadata: Json, config: Json,
                            timestamp: string, exportedBad: map<string, Json>)
    ensures GroupMetadata(resolution, unit, metadata).Keys ==
            {"downsamplingFactors", "metadata", "resolution", "units"}
    ensures DatasetMetadata(config, timestamp, exportedBad, resolution, unit).Keys ==
            {"exportConfig", "exportTimestampUTC", "badSections", "resolution", "units"}
    ensures forall k :: k in GroupMetadata(resolution, unit, metadata) ==> k !in Reserved
    ensures forall k :: k in DatasetMetadata(config, timestamp, exportedBad, resolution, unit) ==> k !in Reserved
    ensures "downsamplingFactors" !in DatasetMetadata(config, timestamp, exportedBad, resolution, unit)
  {
  }

  /** After export the group declares one level with factors `[1,1,1]`, and
      the dataset records the exported bad sections and the resolution. */
  lemma ExportedMetadata(files: map<string, Attributes>, groupPath: string, datasetPath: string,
                         resolution: Json, unit: Json, metadata: Json, config: Json,
                         timestamp: string, exportedBad: map<string, Json>)
    ensures var after := ExportedFiles(files, groupPath, datasetPath, resolution, unit, metadata,
                                       config, timestamp, exportedBad);
            groupPath in after && datasetPath in after &&
            "downsamplingFactors" in after[groupPath] &&
            after[groupPath]["downsamplingFactors"] == Arr([IntsJson([1, 1, 1])]) &&
            "badSections" in after[datasetPath] && after[datasetPath]["badSections"] == Obj(exportedBad) &&
            "resolution" in after[datasetPath] && after[datasetPath]["resolution"] == resolution
  {
    var gm := GroupMetadata(resolution, unit, metadata);
    var dm := DatasetMetadata(config, timestamp, exportedBad, resolution, unit);
    MetadataNotReserved(resolution, unit, metadata, config, timestamp, exportedBad);
    ExportMerges(files, groupPath, gm, datasetPath, dm);
  }

  /** The two merges of the export, over any two paths (equal or not). */
  lemma ExportMerges(files: map<string, Attributes>, g: string, gm: Attributes, ds: string, dm: Attributes)
    requires "downsamplingFactors" in gm && "downsamplingFactors" !in dm
    requires "badSections" in dm && "resolution" in dm
    ensures var after := MergeInto(MergeInto(files, g, gm), ds, dm);
            g in after && ds in after &&
            "downsamplingFactors" in after[g] && after[g]["downsamplingFactors"] == gm["downsamplingFactors"] &&
            "badSections" in after[ds] && after[ds]["badSections"] == dm["badSections"] &&
            "resolution" in after[ds] && after[ds]["resolution"] == dm["resolution"]
  {
    var afterGroup := MergeInto(files, g, gm);
    MergeWrites(files, g, gm, "downsamplingFactors");
    MergeKeeps(afterGroup, ds, dm, g, "downsamplingFactors");
    MergeWrites(afterGroup, ds, dm, "badSections");
    MergeWrites(afterGroup, ds, dm, "resolution");
  }

  /** A key the merge accepts arrives with its value. */
  lemma MergeWrites(files: map<string, Attributes>, path: string, attrs: Attributes, k: string)
    requires k in attrs && k !in Reserved
    ensures path in MergeInto(files, path, attrs)
    ensures k in MergeInto(files, path, attrs)[path] && MergeInto(files, path, attrs)[path][k] == attrs[k]
  {
  }

  /** A key the merge does not write, in any file, keeps its value. */
  lemma MergeKeeps(files: map<string, Attributes>, path: string, attrs: Attributes, p: string, k: string)
    requires p in files && k in files[p]
    requires p != path || k !in attrs || k in Reserved
    ensures p in MergeInto(files, path, attrs)
    ensures k in MergeInto(files, path, attrs)[p] && MergeInto(files, path, attrs)[p][k] == files[p][k]
  {
  }

  /** The metadata step of the export: merge the group attributes into the
      group and the dataset attributes into `<group>/s0`. */
  method WriteExportMetadata(fs: FileSystem, exportDir: string, groupName: string,
                             resolution: Json, unit: Json, metadata: Json, config: Json,
                             timestamp: string, badSections: map<int, Json>)
    modifies fs
    ensures fs.files == ExportedFiles(old(fs.files), AttributesPath(exportDir, Some(groupName)),
                                      AttributesPath(exportDir, Some(DatasetName(groupName))),
                                      resolution, unit, metadata, config, timestamp,
                                      ExportBadSections(badSections))
  {
    var dsName := DatasetName(groupName);
    var _ := UpdateAttributes(fs, GroupMetadata(resolution, unit, metadata), exportDir, Some(groupName));
    var _ := UpdateAttributes(fs, DatasetMetadata(config, timestamp, ExportBadSections(badSections), resolution, unit),
                              exportDir, Some(dsName));
  }
}
