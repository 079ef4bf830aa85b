/** `utils/add_downsampling.py`: registers one more level of a multiscale N5
    group. It checks that the arrays `s0 .. s<newscale>` exist, appends the
    cumulative downsampling factors of the new level to the group's
    `downsamplingFactors`, and, when the group records units and a
    resolution, writes resolution information for the new level. */
module AddDownsampling {
  import opened Results
  import opened PyStr
  import opened N5

  // ================================================================ arguments

  /** `os.path.sep` on POSIX. */
  const Sep: char := '/'

  /** `group_name(s)`: `s.strip(os.path.sep).strip("/")`. */
  function GroupName(s: string): string
  {
    Strip(Strip(s, Sep), '/')
  }

  /** On POSIX both strips remove slashes, so the group name is the argument
      without its runs of `/` at both ends. */
  lemma GroupNameStripsSlashes(s: string)
    ensures GroupName(s) == Strip(s, '/')
    ensures IsStripped(s, '/', GroupName(s))
  {
    StripIdempotent(s, '/');
    StripRemovesEnds(s, '/');
  }

  /** The value of the `downsampling` argument: one integer applied to every
      axis, or one integer per axis. */
  datatype Downsampling = Uniform(factor: int) | PerAxis(factors: seq<int>)

  /** `[int(el) for el in els]`: every element passed through `int()`. */
  function ParseElements(els: seq<string>): (r: Result<seq<int>>)
    ensures r.Success? <==> forall i :: 0 <= i < |els| ==> ParseInt(els[i]).Some?
    ensures r.Success? ==>
              (|r.value| == |els| && forall i :: 0 <= i < |els| ==> r.value[i] == ParseInt(els[i]).value)
    decreases |els|
  {
    if els == [] then Success([])
    else
      var head := ParseInt(els[0]);
      if head.None? then Failure(ValueError(els[0]))
      else
        var rest := ParseElements(els[1..]);
        if rest.Failure? then
          ParseElementsTailFails(els);
          rest
        else
          ParseElementsTailParses(els, rest.value);
          Success([head.value] + rest.value)
  }

  /** Induction step of `ParseElements` when the tail has a bad element. */
  lemma ParseElementsTailFails(els: seq<string>)
    requires |els| > 0
    requires !forall i :: 0 <= i < |els| - 1 ==> ParseInt(els[1..][i]).Some?
    ensures !forall i :: 0 <= i < |els| ==> ParseInt(els[i]).Some?
  {
    var j :| 0 <= j < |els| - 1 && ParseInt(els[1..][j]).None?;
    assert els[j + 1] == els[1..][j];
  }

  /** Induction step of `ParseElements` when the head and the tail parse. */
  lemma ParseElementsTailParses(els: seq<string>, rest: seq<int>)
    requires |els| > 0 && ParseInt(els[0]).Some?
    requires forall i :: 0 <= i < |els| - 1 ==> ParseInt(els[1..][i]).Some?
    requires |rest| == |els| - 1 && forall i :: 0 <= i < |els| - 1 ==> rest[i] == ParseInt(els[1..][i]).value
    ensures forall i :: 0 <= i < |els| ==> ParseInt(els[i]).Some?
    ensures var r := [ParseInt(els[0]).value] + rest;
            |r| == |els| && forall i :: 0 <= i < |els| ==> r[i] == ParseInt(els[i]).value
  {
    assert forall j :: 1 <= j < |els| ==> els[j] == els[1..][j - 1];
  }

  /** The position of the first element that is not an integer (`|els|`
      when there is none). */
  function FirstNonInt(els: seq<string>): (k: nat)
    ensures k <= |els|
    ensures forall j :: 0 <= j < k ==> ParseInt(els[j]).Some?
    ensures k < |els| ==> ParseInt(els[k]).None?
    decreases |els|
  {
    if els == [] || ParseInt(els[0]).None? then 0
    else
      var k := FirstNonInt(els[1..]);
      assert forall j :: 1 <= j < k + 1 ==> els[j] == els[1..][j - 1];
      k + 1
  }

  /** The first element that is not an integer raises ValueError. */
  lemma {:induction false} ParseElementsFirstBad(els: seq<string>)
    requires ParseElements(els).Failure?
    ensures FirstNonInt(els) < |els| && ParseElements(els).error == ValueError(els[FirstNonInt(els)])
    decreases |els|
  {
    if ParseInt(els[0]).Some? {
      var tail := els[1..];
      assert ParseElements(els).error == ParseElements(tail).error;
      ParseElementsFirstBad(tail);
      assert els[FirstNonInt(els)] == tail[FirstNonInt(tail)];
    }
  }

  /** `parse_downsampling(s)`: split on commas; a single element is one
      integer, several elements are a list of integers. */
  function ParseDownsampling(s: string): Result<Downsampling>
  {
    var els := Split(s, ',');
    if |els| == 1 then
      match ParseInt(els[0])
      case None => Failure(ValueError(els[0]))
      case Some(n) => Success(Uniform(n))
    else
      match ParseElements(els)
      case Failure(e) => Failure(e)
      case Success(factors) => Success(PerAxis(factors))
  }

  /** A string without a comma is read as one integer; one with `k` commas as
      a list of `k + 1` integers, one per comma-separated piece. */
  lemma ParseDownsamplingShape(s: string)
    ensures ParseDownsampling(s).Success? && Count(s, ',') == 0 ==>
              ParseDownsampling(s).value.Uniform? && ParseInt(s) == Some(ParseDownsampling(s).value.factor)
    ensures ParseDownsampling(s).Success? && Count(s, ',') > 0 ==>
              ParseDownsampling(s).value.PerAxis? &&
              |ParseDownsampling(s).value.factors| == Count(s, ',') + 1 &&
              forall i :: 0 <= i < Count(s, ',') + 1 ==>
                ParseInt(Split(s, ',')[i]) == Some(ParseDownsampling(s).value.factors[i])
  {
    var els := Split(s, ',');
    if |els| == 1 {
      JoinSplit(s, ',');
      assert JoinWith(els, ',') == els[0];
    }
  }

  /** Parsing succeeds exactly when every comma-separated piece is an
      integer. */
  lemma ParseDownsamplingSucceeds(s: string)
    ensures ParseDownsampling(s).Success? <==>
              forall i :: 0 <= i < |Split(s, ',')| ==> ParseInt(Split(s, ',')[i]).Some?
  {
  }

  /** A piece that is not an integer raises the ValueError of the first
      such piece, whether the string holds one piece or several. */
  lemma ParseDownsamplingFirstBad(s: string)
    requires ParseDownsampling(s).Failure?
    ensures var els := Split(s, ',');
            FirstNonInt(els) < |els| && ParseDownsampling(s).error == ValueError(els[FirstNonInt(els)])
  {
    var els := Split(s, ',');
    if |els| == 1 {
      assert ParseInt(els[0]).None?;
    } else {
      ParseElementsFirstBad(els);
    }
  }

  /** `str(k)` never holds a comma. */
  lemma NoCommaInFormatInt(k: int)
    ensures ',' !in FormatInt(k)
  {
    var d := FormatNat(if k < 0 then -k else k);
    assert forall i :: 0 <= i < |d| ==> IsDigit(d[i]);
    if k < 0 {
      assert FormatInt(k) == "-" + d;
      assert forall i :: 0 <= i < |FormatInt(k)| ==> FormatInt(k)[i] == '-' || IsDigit(FormatInt(k)[i]);
    }
  }

  /** Splitting `p + t` where `p` has no separator: the first piece starts
      with `p`, the rest are the pieces of `t`. */
  lemma {:induction false} SplitPrefix(p: string, c: char, t: string)
    requires c !in p
    ensures Split(p + t, c) == [p + Split(t, c)[0]] + Split(t, c)[1..]
    decreases |p|
  {
    if p == [] {
      assert p + t == t;
      var r := Split(t, c);
      assert p + r[0] == r[0];
      assert [r[0]] + r[1..] == r;
    } else {
      SplitPrefix(p[1..], c, t);
      assert (p + t)[1..] == p[1..] + t;
      assert [p[0]] + (p[1..] + Split(t, c)[0]) == p + Split(t, c)[0];
    }
  }

  /** Joining pieces without the separator and splitting again gives the
      pieces back. */
  lemma {:induction false} SplitJoin(parts: seq<string>, c: char)
    requires |parts| >= 1
    requires forall i :: 0 <= i < |parts| ==> c !in parts[i]
    ensures Split(JoinWith(parts, c), c) == parts
    decreases |parts|
  {
    if |parts| == 1 {
      SplitPrefix(parts[0], c, "");
      assert parts[0] + "" == parts[0];
    } else {
      var rest := parts[1..];
      SplitJoin(rest, c);
      var j := JoinWith(rest, c);
      assert JoinWith(parts, c) == parts[0] + ([c] + j);
      SplitPrefix(parts[0], c, [c] + j);
      assert Split([c] + j, c) == [""] + Split(j, c);
      assert parts[0] + "" == parts[0];
    }
  }

  /** The argument `str(f0),str(f1),...` parses back to the factors: one
      factor as a uniform downsampling, several as a per-axis one. */
  lemma ParseFormattedDownsampling(factors: seq<int>)
    requires |factors| >= 1
    ensures var s := JoinWith(seq(|factors|, i requires 0 <= i < |factors| => FormatInt(factors[i])), ',');
            ParseDownsampling(s) == if |factors| == 1 then Success(Uniform(factors[0]))
                                    else Success(PerAxis(factors))
  {
    var parts := seq(|factors|, i requires 0 <= i < |factors| => FormatInt(factors[i]));
    forall i | 0 <= i < |parts| ensures ',' !in parts[i] && ParseInt(parts[i]) == Some(factors[i]) {
      NoCommaInFormatInt(factors[i]);
      ParseFormatInt(factors[i]);
    }
    SplitJoin(parts, ',');
    if |factors| > 1 {
      var r := ParseElements(parts);
      assert r.value == factors;
    }
  }

  // ================================================================ factors

  /** `[lft * rt for lft, rt in zip(a, b)]`: `zip` stops at the shorter list. */
  function ZipProduct(a: seq<int>, b: seq<int>): (r: seq<int>)
    ensures |r| == if |a| <= |b| then |a| else |b|
    ensures forall i :: 0 <= i < |r| ==> r[i] == a[i] * b[i]
    decreases |a|
  {
    if a == [] || b == [] then []
    else [a[0] * b[0]] + ZipProduct(a[1..], b[1..])
  }

  /** The factor list a downsampling stands for over `n` axes: an integer is
      repeated `n` times (line 28). */
  function Expand(d: Downsampling, n: nat): (r: seq<int>)
    ensures d.Uniform? ==> |r| == n && forall i :: 0 <= i < n ==> r[i] == d.factor
    ensures d.PerAxis? ==> r == d.factors
  {
    match d
    case Uniform(f) => seq(n, _ => f)
    case PerAxis(fs) => fs
  }

  /** `zip_mult(prev, new)`. */
  function ZipMult(prev: seq<int>, d: Downsampling): seq<int>
  {
    ZipProduct(prev, Expand(d, |prev|))
  }

  /** Each axis of the new level is the previous level's factor times the
      step's factor for that axis; a uniform step keeps the number of axes
      and a per-axis step truncates to the shorter list. */
  lemma ZipMultAxes(prev: seq<int>, d: Downsampling)
    ensures d.Uniform? ==>
              (|ZipMult(prev, d)| == |prev| &&
               forall i :: 0 <= i < |prev| ==> ZipMult(prev, d)[i] == prev[i] * d.factor)
    ensures d.PerAxis? ==>
              (|ZipMult(prev, d)| == (if |prev| <= |d.factors| then |prev| else |d.factors|) &&
               forall i :: 0 <= i < |ZipMult(prev, d)| ==> ZipMult(prev, d)[i] == prev[i] * d.factors[i])
  {
  }

  /** Cumulative factors compose: two per-axis steps applied one after the
      other give the same factors as the single step that multiplies them,
      whatever the lengths, since `zip` truncates both sides alike. */
  lemma ZipMultCompose(prev: seq<int>, d1: seq<int>, d2: seq<int>)
    ensures ZipMult(ZipMult(prev, PerAxis(d1)), PerAxis(d2)) == ZipMult(prev, PerAxis(ZipProduct(d1, d2)))
  {
    var step := ZipProduct(prev, d1);
    var lhs := ZipProduct(step, d2);
    var rhs := ZipProduct(prev, ZipProduct(d1, d2));
    assert ZipMult(prev, PerAxis(d1)) == step && ZipMult(step, PerAxis(d2)) == lhs;
    assert ZipMult(prev, PerAxis(ZipProduct(d1, d2))) == rhs;
    assert |lhs| == |rhs|;
    forall i | 0 <= i < |lhs| ensures lhs[i] == rhs[i] {
      MulAssoc(prev[i], d1[i], d2[i]);
    }
  }

  /** The same for uniform steps: stepping by `a` and then by `b` is
      stepping by `a * b`. */
  lemma ZipMultComposeUniform(prev: seq<int>, a: int, b: int)
    ensures ZipMult(ZipMult(prev, Uniform(a)), Uniform(b)) == ZipMult(prev, Uniform(a * b))
  {
    var lhs := ZipMult(ZipMult(prev, Uniform(a)), Uniform(b));
    var rhs := ZipMult(prev, Uniform(a * b));
    assert |lhs| == |prev| == |rhs|;
    forall i | 0 <= i < |prev| ensures lhs[i] == rhs[i] {
      MulAssoc(prev[i], a, b);
    }
  }

  lemma MulAssoc(a: int, b: int, c: int)
    ensures (a * b) * c == a * (b * c)
  {
  }

  /** A uniform step of 1 repeats the previous level's factors. */
  lemma ZipMultByOne(prev: seq<int>)
    ensures ZipMult(prev, Uniform(1)) == prev
  {
  }

  // ================================================================ paths

  /** `a / b` on pathlib paths: an empty component adds nothing. */
  function PathDiv(a: string, b: string): string
  {
    if b == [] then a else Join(a, b)
  }

  /** `group_path / "attributes.json"`. */
  function GroupAttrsPath(groupPath: string): string
  {
    Join(groupPath, "attributes.json")
  }

  /** `group_path / f"s{scale}/attributes.json"`. */
  function ScaleAttrsPath(groupPath: string, scale: int): string
  {
    Join(groupPath, "s" + FormatInt(scale) + "/attributes.json")
  }

  /** The group's attributes file and the attributes files of its levels
      are pairwise different files. */
  lemma AttrsPathsDistinct(groupPath: string, a: int, b: int)
    ensures ScaleAttrsPath(groupPath, a) != GroupAttrsPath(groupPath)
    ensures a != b ==> ScaleAttrsPath(groupPath, a) != ScaleAttrsPath(groupPath, b)
  {
    var x := "s" + FormatInt(a) + "/attributes.json";
    var y := "s" + FormatInt(b) + "/attributes.json";
    var g := "attributes.json";
    JoinRelative(groupPath, x);
    JoinRelative(groupPath, y);
    JoinRelative(groupPath, g);
    var pre := |Join(groupPath, g)| - |g|;
    assert |Join(groupPath, x)| - |x| == pre && |Join(groupPath, y)| - |y| == pre;
    assert Join(groupPath, x)[pre] == 's';
    assert Join(groupPath, g)[pre] == 'a';
    if a != b && Join(groupPath, x) == Join(groupPath, y) {
      assert x == y;
      var fa := FormatInt(a);
      var fb := FormatInt(b);
      assert |fa| == |fb|;
      assert fa == x[1..1 + |fa|] && fb == y[1..1 + |fb|];
      FormatIntInjective();
      assert false;
    }
  }

  // ================================================================ check_arrays_exist

  /** The first level in `scale .. newScale` whose attributes file is
      missing, if any. */
  function FirstMissing(files: map<string, Attributes>, groupPath: string, newScale: int, scale: int)
    : (m: Option<int>)
    ensures m.None? <==> forall t :: scale <= t <= newScale ==> ScaleAttrsPath(groupPath, t) in files
    ensures m.Some? ==> scale <= m.value <= newScale && ScaleAttrsPath(groupPath, m.value) !in files &&
                        forall t :: scale <= t < m.value ==> ScaleAttrsPath(groupPath, t) in files
    decreases newScale + 1 - scale
  {
    if scale > newScale then None
    else if ScaleAttrsPath(groupPath, scale) !in files then Some(scale)
    else FirstMissing(files, groupPath, newScale, scale + 1)
  }

  /** `check_arrays_exist(group_path, new_scale)`: every level `s0 .. s<new_scale>`
      must have an attributes file; the first that does not raises
      FileNotFoundError. It changes nothing. */
  method CheckArraysExist(fs: FileSystem, groupPath: string, newScale: int) returns (r: Outcome)
    ensures r.Pass? <==> forall s :: 0 <= s <= newScale ==> ScaleAttrsPath(groupPath, s) in fs.files
    ensures r.Fail? ==> exists s :: 0 <= s <= newScale && ScaleAttrsPath(groupPath, s) !in fs.files &&
                                    (forall t :: 0 <= t < s ==> ScaleAttrsPath(groupPath, t) in fs.files) &&
                                    r.error == FileNotFound(ScaleAttrsPath(groupPath, s))
    ensures r == match FirstMissing(fs.files, groupPath, newScale, 0)
                 case None => Pass
                 case Some(s) => Fail(FileNotFound(ScaleAttrsPath(groupPath, s)))
  {
    var scale := 0;
    while scale < newScale + 1
      invariant 0 <= scale <= (if newScale < 0 then 0 else newScale + 1)
      invariant forall t :: 0 <= t < scale ==> ScaleAttrsPath(groupPath, t) in fs.files
      invariant FirstMissing(fs.files, groupPath, newScale, 0) == FirstMissing(fs.files, groupPath, newScale, scale)
    {
      var attrsPath := ScaleAttrsPath(groupPath, scale);
      if !fs.IsFile(attrsPath) {
        return Fail(FileNotFound(attrsPath));
      }
      scale := scale + 1;
    }
    return Pass;
  }

  // ================================================================ add_downscale

  /** How the dataset file is written at the end of `add_downscale`. */
  datatype DatasetWrite =
    | AsWritten   // line 67: the group's attributes `attrs` are dumped
    | Intended    // `ds_attrs` with the new units and resolution

  /** The outcome of a call and the files after it. */
  datatype Step = Step(outcome: Outcome, files: map<string, Attributes>)

  /** The group attributes with the new level appended to
      `downsamplingFactors`. */
  function AppendLevel(attrs: Attributes, dsf: seq<Json>, total: seq<int>): Attributes
  {
    attrs["downsamplingFactors" := Arr(dsf + [IntsJson(total)])]
  }

  /** The group already lists `newScale` levels, the last one a list of
      integers: the state in which a level can be appended. */
  predicate LevelsReady(attrs: Attributes, newScale: int)
  {
    "downsamplingFactors" in attrs && attrs["downsamplingFactors"].Arr? &&
    |attrs["downsamplingFactors"].items| == newScale >= 1 &&
    IntList(attrs["downsamplingFactors"].items[newScale - 1]).Some?
  }

  /** The cumulative factors of the new level: `zip_mult(dsf[-1], downscaling)`. */
  function NewLevel(attrs: Attributes, newScale: int, d: Downsampling): seq<int>
    requires LevelsReady(attrs, newScale)
  {
    ZipMult(IntList(attrs["downsamplingFactors"].items[newScale - 1]).value, d)
  }

  /** `add_downscale` on the container's files, with `gp` the group's
      attributes file and `dp` the new level's: read the group attributes,
      check the number of existing levels, append the new level's cumulative
      factors and write the group back; then, when the group has units and a
      resolution and the dataset has neither, write the dataset's file. */
  function AddDownscaleAt(files: map<string, Attributes>, gp: string, dp: string, newScale: int,
                          d: Downsampling, mode: DatasetWrite): Step
  {
    if gp !in files then Step(Fail(FileNotFound(gp)), files)
    else
      var attrs := files[gp];
      if "downsamplingFactors" !in attrs then Step(Fail(KeyError("downsamplingFactors")), files)
      else if !attrs["downsamplingFactors"].Arr? then Step(Fail(TypeError), files)
      else
        var dsf := attrs["downsamplingFactors"].items;
        if |dsf| != newScale then Step(Fail(RuntimeError(newScale, |dsf|)), files)
        else if dsf == [] then Step(Fail(IndexError), files)
        else if IntList(dsf[|dsf| - 1]).None? then Step(Fail(TypeError), files)
        else
          var total := ZipMult(IntList(dsf[|dsf| - 1]).value, d);
          var newAttrs := AppendLevel(attrs, dsf, total);
          var written := files[gp := newAttrs];
          if "units" !in attrs || "resolution" !in attrs then Step(Pass, written)
          else if IntList(attrs["resolution"]).None? then Step(Fail(TypeError), written)
          else
            var newRes := ZipProduct(IntList(attrs["resolution"]).value, total);
            if dp !in written then Step(Fail(FileNotFound(dp)), written)
            else
              var dsAttrs := written[dp];
              if "units" in dsAttrs || "resolution" in dsAttrs then Step(Pass, written)
              else
                var out := match mode
                  case AsWritten => newAttrs
                  case Intended => dsAttrs["units" := attrs["units"]]["resolution" := IntsJson(newRes)];
                Step(Pass, written[dp := out])
  }

  /** `add_downscale(group_path, new_scale, downscaling)`. */
  function AddDownscaleSpec(files: map<string, Attributes>, groupPath: string, newScale: int,
                            d: Downsampling, mode: DatasetWrite): Step
  {
    AddDownscaleAt(files, GroupAttrsPath(groupPath), ScaleAttrsPath(groupPath, newScale), newScale, d, mode)
  }

  /** `add_downscale` as the source executes it. */
  method AddDownscale(fs: FileSystem, groupPath: string, newScale: int, d: Downsampling)
    returns (r: Outcome)
    modifies fs
    ensures Step(r, fs.files) == AddDownscaleSpec(old(fs.files), groupPath, newScale, d, AsWritten)
  {
    var attrsPath := GroupAttrsPath(groupPath);
    var read := fs.Read(attrsPath);
    if read.Failure? {
      return Fail(read.error);
    }
    var attrs := read.value;
    if "downsamplingFactors" !in attrs {
      return Fail(KeyError("downsamplingFactors"));
    }
    if !attrs["downsamplingFactors"].Arr? {
      return Fail(TypeError);
    }
    var dsf := attrs["downsamplingFactors"].items;
    if |dsf| != newScale {
      return Fail(RuntimeError(newScale, |dsf|));
    }
    if dsf == [] {
      return Fail(IndexError);
    }
    var prev := IntList(dsf[|dsf| - 1]);
    if prev.None? {
      return Fail(TypeError);
    }
    var total := ZipMult(prev.value, d);
    attrs := AppendLevel(attrs, dsf, total);
    fs.Write(attrsPath, attrs);

    if "units" !in attrs || "resolution" !in attrs {
      return Pass;   // logged: no resolution information in the group
    }
    var units := attrs["units"];
    var resolution := IntList(attrs["resolution"]);
    if resolution.None? {
      return Fail(TypeError);
    }
    var newRes := ZipProduct(resolution.value, total);

    var dsAttrPath := ScaleAttrsPath(groupPath, newScale);
    var dsRead := fs.Read(dsAttrPath);
    if dsRead.Failure? {
      return Fail(dsRead.error);
    }
    var dsAttrs := dsRead.value;
    if "units" in dsAttrs || "resolution" in dsAttrs {
      return Pass;   // logged: resolution already present in the dataset
    }
    dsAttrs := dsAttrs["units" := units]["resolution" := IntsJson(newRes)];
    fs.Write(dsAttrPath, attrs);
    return Pass;
  }

  /** When the group lists `newScale` levels, the call appends the new one:
      the group file's `downsamplingFactors` gains the cumulative factors
      `zip_mult(dsf[-1], downscaling)`, and no other group key changes. */
  lemma AddDownscaleAppendsLevel(files: map<string, Attributes>, gp: string, dp: string, newScale: int,
                                 d: Downsampling, mode: DatasetWrite)
    requires gp != dp
    requires gp in files && LevelsReady(files[gp], newScale)
    ensures var s := AddDownscaleAt(files, gp, dp, newScale, d, mode);
            gp in s.files &&
            s.files[gp] == AppendLevel(files[gp], files[gp]["downsamplingFactors"].items,
                                       NewLevel(files[gp], newScale, d))
  {
    var attrs := files[gp];
    var g := AppendLevel(attrs, attrs["downsamplingFactors"].items, NewLevel(attrs, newScale, d));
    var written := files[gp := g];
    var s := AddDownscaleAt(files, gp, dp, newScale, d, mode);
    if "units" !in attrs || "resolution" !in attrs || IntList(attrs["resolution"]).None? ||
       dp !in written || "units" in written[dp] || "resolution" in written[dp] {
      assert s.files == written;
    } else {
      assert s.files == written[dp := s.files[dp]];
    }
  }

  /** Only the group's file and the new level's file can change. */
  lemma AddDownscaleTouchesTwoFiles(files: map<string, Attributes>, gp: string, dp: string, newScale: int,
                                    d: Downsampling, mode: DatasetWrite, p: string)
    requires p != gp && p != dp
    ensures var s := AddDownscaleAt(files, gp, dp, newScale, d, mode);
            (p in s.files <==> p in files) && (p in files ==> s.files[p] == files[p])
  {
  }

  /** The number of existing levels must equal the new scale: otherwise the
      call raises RuntimeError with both numbers and writes nothing. */
  lemma AddDownscaleCountsLevels(files: map<string, Attributes>, gp: string, dp: string, newScale: int,
                                 d: Downsampling, mode: DatasetWrite)
    requires gp in files && "downsamplingFactors" in files[gp] && files[gp]["downsamplingFactors"].Arr?
    ensures var n := |files[gp]["downsamplingFactors"].items|;
            var s := AddDownscaleAt(files, gp, dp, newScale, d, mode);
            (s.outcome == Fail(RuntimeError(newScale, n)) <==> n != newScale) &&
            (n != newScale ==> s.files == files)
  {
  }

  /** Running the same step twice fails the second time: the first call
      left `newScale + 1` levels. */
  lemma AddDownscaleTwiceFails(files: map<string, Attributes>, gp: string, dp: string, newScale: int,
                               d: Downsampling, mode: DatasetWrite)
    requires gp != dp
    requires gp in files && LevelsReady(files[gp], newScale)
    ensures var once := AddDownscaleAt(files, gp, dp, newScale, d, mode);
            AddDownscaleAt(once.files, gp, dp, newScale, d, mode).outcome ==
              Fail(RuntimeError(newScale, newScale + 1))
  {
    AddDownscaleAppendsLevel(files, gp, dp, newScale, d, mode);
    var once := AddDownscaleAt(files, gp, dp, newScale, d, mode);
    assert |once.files[gp]["downsamplingFactors"].items| == newScale + 1;
  }

  /** With `new_scale == 0` and no level listed, the count check passes but
      `dsf[-1]` raises IndexError; nothing is written. */
  lemma AddDownscaleEmptyLevels(files: map<string, Attributes>, gp: string, dp: string,
                                d: Downsampling, mode: DatasetWrite)
    requires gp in files && "downsamplingFactors" in files[gp]
    requires files[gp]["downsamplingFactors"] == Arr([])
    ensures AddDownscaleAt(files, gp, dp, 0, d, mode) == Step(Fail(IndexError), files)
  {
  }

  /** A group without units or without a resolution gets its new level and
      the call returns there: the dataset file is not read or written. */
  lemma AddDownscaleWithoutResolution(files: map<string, Attributes>, gp: string, dp: string,
                                      newScale: int, d: Downsampling, mode: DatasetWrite)
    requires gp in files && LevelsReady(files[gp], newScale)
    requires "units" !in files[gp] || "resolution" !in files[gp]
    ensures AddDownscaleAt(files, gp, dp, newScale, d, mode) ==
            Step(Pass, files[gp := AppendLevel(files[gp], files[gp]["downsamplingFactors"].items,
                                               NewLevel(files[gp], newScale, d))])
  {
  }

  /** The group file is written before the resolution is looked at: a
      resolution that is not a list of integers raises TypeError after the
      new level has been stored, and the dataset file is untouched. */
  lemma AddDownscaleWritesGroupFirst(files: map<string, Attributes>, gp: string, dp: string,
                                     newScale: int, d: Downsampling, mode: DatasetWrite)
    requires gp in files && LevelsReady(files[gp], newScale)
    requires "units" in files[gp] && "resolution" in files[gp] && IntList(files[gp]["resolution"]).None?
    ensures AddDownscaleAt(files, gp, dp, newScale, d, mode) ==
            Step(Fail(TypeError), files[gp := AppendLevel(files[gp], files[gp]["downsamplingFactors"].items,
                                                          NewLevel(files[gp], newScale, d))])
  {
  }

  /** A dataset that already records units or a resolution keeps its file. */
  lemma AddDownscaleKeepsDatasetResolution(files: map<string, Attributes>, gp: string, dp: string,
                                           newScale: int, d: Downsampling, mode: DatasetWrite)
    requires gp != dp
    requires dp in files && ("units" in files[dp] || "resolution" in files[dp])
    ensures var s := AddDownscaleAt(files, gp, dp, newScale, d, mode);
            dp in s.files && s.files[dp] == files[dp]
  {
  }

  /** The intended dataset write: when the dataset file changes, it keeps
      its own keys and gains the group's units and the group's resolution
      scaled by the new level's cumulative factors. */
  lemma IntendedDatasetResolution(files: map<string, Attributes>, gp: string, dp: string, newScale: int,
                                  d: Downsampling)
    requires gp != dp
    ensures var s := AddDownscaleAt(files, gp, dp, newScale, d, Intended);
            (dp in files && dp in s.files && s.files[dp] != files[dp]) ==>
              (gp in files && LevelsReady(files[gp], newScale) &&
               "units" in files[gp] && "resolution" in files[gp] && IntList(files[gp]["resolution"]).Some? &&
               s.outcome == Pass &&
               s.files[dp] == files[dp]["units" := files[gp]["units"]]
                                       ["resolution" := IntsJson(ZipProduct(IntList(files[gp]["resolution"]).value,
                                                                     NewLevel(files[gp], newScale, d)))])
  {
  }

  /** The intended write happens: when the group has units and an integer
      resolution and the dataset file declares neither, the dataset file
      gains the units and the scaled resolution and the call passes. */
  lemma IntendedDatasetWritten(files: map<string, Attributes>, gp: string, dp: string, newScale: int,
                               d: Downsampling)
    requires gp != dp
    requires gp in files && LevelsReady(files[gp], newScale)
    requires "units" in files[gp] && "resolution" in files[gp] && IntList(files[gp]["resolution"]).Some?
    requires dp in files && "units" !in files[dp] && "resolution" !in files[dp]
    ensures var s := AddDownscaleAt(files, gp, dp, newScale, d, Intended);
            s.outcome == Pass && dp in s.files &&
            s.files[dp] == files[dp]["units" := files[gp]["units"]]
                                    ["resolution" := IntsJson(ZipProduct(IntList(files[gp]["resolution"]).value,
                                                                         NewLevel(files[gp], newScale, d)))]
  {
  }

  /** As written, the dataset file is overwritten under the same conditions:
      both the group file and the dataset file then hold the group's
      attributes with the new level appended. */
  lemma AsWrittenDatasetOverwritten(files: map<string, Attributes>, gp: string, dp: string, newScale: int,
                                    d: Downsampling)
    requires gp != dp
    requires gp in files && LevelsReady(files[gp], newScale)
    requires "units" in files[gp] && "resolution" in files[gp] && IntList(files[gp]["resolution"]).Some?
    requires dp in files && "units" !in files[dp] && "resolution" !in files[dp]
    ensures var g := AppendLevel(files[gp], files[gp]["downsamplingFactors"].items, NewLevel(files[gp], newScale, d));
            AddDownscaleAt(files, gp, dp, newScale, d, AsWritten) == Step(Pass, files[gp := g][dp := g])
  {
  }

  /** As written, a dataset file that changes receives the group's new
      attributes: the group's `downsamplingFactors` and the group's own,
      unscaled resolution. */
  lemma AsWrittenDatasetGetsGroupAttributes(files: map<string, Attributes>, gp: string, dp: string,
                                            newScale: int, d: Downsampling)
    requires gp != dp
    ensures var s := AddDownscaleAt(files, gp, dp, newScale, d, AsWritten);
            (dp in files && dp in s.files && s.files[dp] != files[dp]) ==>
              (gp in files && gp in s.files && s.files[dp] == s.files[gp] &&
               "downsamplingFactors" in s.files[dp] &&
               "resolution" in files[gp] && s.files[dp]["resolution"] == files[gp]["resolution"])
  {
  }

  /** A group with one level `[1, 1, 1]`, units and resolution `[4, 4, 40]`,
      and an empty `s1`, downsampled by 2: as written, `s1` records the
      resolution `[4, 4, 40]`; the intended resolution is `[8, 8, 80]`. */
  lemma DatasetResolutionExample()
    ensures var group := map["downsamplingFactors" := Arr([IntsJson([1, 1, 1])]),
                             "units" := Arr([Str("nm"), Str("nm"), Str("nm")]),
                             "resolution" := IntsJson([4, 4, 40])];
            var files := map["g/attributes.json" := group, "g/s1/attributes.json" := map[]];
            AddDownscaleAt(files, "g/attributes.json", "g/s1/attributes.json", 1, Uniform(2), AsWritten)
              .files["g/s1/attributes.json"]["resolution"] == IntsJson([4, 4, 40]) &&
            AddDownscaleAt(files, "g/attributes.json", "g/s1/attributes.json", 1, Uniform(2), Intended)
              .files["g/s1/attributes.json"]["resolution"] == IntsJson([8, 8, 80])
  {
    var group := map["downsamplingFactors" := Arr([IntsJson([1, 1, 1])]),
                     "units" := Arr([Str("nm"), Str("nm"), Str("nm")]),
                     "resolution" := IntsJson([4, 4, 40])];
    var files := map["g/attributes.json" := group, "g/s1/attributes.json" := map[]];
    IntListIntsJson([1, 1, 1]);
    IntListIntsJson([4, 4, 40]);
    assert LevelsReady(group, 1);
    assert NewLevel(group, 1, Uniform(2)) == [2, 2, 2];
    assert ZipProduct([4, 4, 40], [2, 2, 2]) == [8, 8, 80];
    var newGroup := AppendLevel(group, [IntsJson([1, 1, 1])], [2, 2, 2]);
    assert AddDownscaleAt(files, "g/attributes.json", "g/s1/attributes.json", 1, Uniform(2), AsWritten).files ==
           files["g/attributes.json" := newGroup]["g/s1/attributes.json" := newGroup];
  }

  /** The group file is `g/attributes.json` and level 1's is
      `g/s1/attributes.json`. */
  lemma ExamplePaths()
    ensures GroupAttrsPath("g") == "g/attributes.json"
    ensures ScaleAttrsPath("g", 1) == "g/s1/attributes.json"
  {
    assert FormatInt(1) == "1";
  }

  // ================================================================ main

  /** `main(args)` on the four positional arguments `container group newscale
      downsampling`: argparse converts them in order and reports the first
      that fails; then the levels are checked and the new one added. The
      container path is taken as already resolved. */
  function MainSpec(files: map<string, Attributes>, container: string, groupArg: string,
                    newScaleArg: string, downsamplingArg: string): Step
  {
    var group := GroupName(groupArg);
    if ParseInt(newScaleArg).None? then Step(Fail(ArgumentError("newscale")), files)
    else if ParseDownsampling(downsamplingArg).Failure? then Step(Fail(ArgumentError("downsampling")), files)
    else
      LevelsChecked(files, PathDiv(container, group), ParseInt(newScaleArg).value,
                    ParseDownsampling(downsamplingArg).value)
  }

  /** The part of `main` after argument conversion: `check_arrays_exist`, then
      `add_downscale`. */
  function LevelsChecked(files: map<string, Attributes>, groupPath: string, newScale: int,
                         d: Downsampling): Step
  {
    match FirstMissing(files, groupPath, newScale, 0)
    case Some(s) => Step(Fail(FileNotFound(ScaleAttrsPath(groupPath, s))), files)
    case None => AddDownscaleSpec(files, groupPath, newScale, d, AsWritten)
  }

  /** `main(args)`. */
  method AddDownsamplingLevel(fs: FileSystem, container: string, groupArg: string, newScaleArg: string,
                              downsamplingArg: string)
    returns (r: Outcome)
    modifies fs
    ensures Step(r, fs.files) == MainSpec(old(fs.files), container, groupArg, newScaleArg, downsamplingArg)
  {
    var group := GroupName(groupArg);
    var newScale := ParseInt(newScaleArg);
    if newScale.None? {
      return Fail(ArgumentError("newscale"));
    }
    var d := ParseDownsampling(downsamplingArg);
    if d.Failure? {
      return Fail(ArgumentError("downsampling"));
    }
    var groupPath := PathDiv(container, group);
    var check := CheckArraysExist(fs, groupPath, newScale.value);
    if check.Fail? {
      return check;
    }
    r := AddDownscale(fs, groupPath, newScale.value, d.value);
  }

  /** A run whose arguments do not convert is refused and changes no file. */
  lemma MainRejectsArguments(files: map<string, Attributes>, container: string, groupArg: string,
                             newScaleArg: string, downsamplingArg: string)
    requires ParseInt(newScaleArg).None? || ParseDownsampling(downsamplingArg).Failure?
    ensures var s := MainSpec(files, container, groupArg, newScaleArg, downsamplingArg);
            s.outcome.Fail? && s.outcome.error.ArgumentError? && s.files == files
  {
  }

  /** Once both arguments convert, `main` is the level check and the new
      level on `container / group`. */
  lemma MainAfterArguments(files: map<string, Attributes>, container: string, groupArg: string,
                           newScaleArg: string, downsamplingArg: string)
    requires ParseInt(newScaleArg).Some? && ParseDownsampling(downsamplingArg).Success?
    ensures MainSpec(files, container, groupArg, newScaleArg, downsamplingArg) ==
            LevelsChecked(files, PathDiv(container, GroupName(groupArg)), ParseInt(newScaleArg).value,
                          ParseDownsampling(downsamplingArg).value)
  {
  }

  /** A run with a level `s0 .. s<newscale>` missing raises FileNotFoundError
      for a missing file and changes no file. */
  lemma MainChecksLevels(files: map<string, Attributes>, container: string, groupArg: string,
                         newScaleArg: string, downsamplingArg: string, missing: int)
    requires ParseInt(newScaleArg).Some? && ParseDownsampling(downsamplingArg).Success?
    requires 0 <= missing <= ParseInt(newScaleArg).value
    requires ScaleAttrsPath(PathDiv(container, GroupName(groupArg)), missing) !in files
    ensures var s := MainSpec(files, container, groupArg, newScaleArg, downsamplingArg);
            s.files == files && s.outcome.Fail? && s.outcome.error.FileNotFound? &&
            s.outcome.error.path !in files
  {
    MainAfterArguments(files, container, groupArg, newScaleArg, downsamplingArg);
    LevelCheckFails(files, PathDiv(container, GroupName(groupArg)), ParseInt(newScaleArg).value,
                    ParseDownsampling(downsamplingArg).value, missing);
  }

  lemma LevelCheckFails(files: map<string, Attributes>, groupPath: string, newScale: int,
                        d: Downsampling, missing: int)
    requires 0 <= missing <= newScale && ScaleAttrsPath(groupPath, missing) !in files
    ensures var s := LevelsChecked(files, groupPath, newScale, d);
            s.files == files && s.outcome.Fail? && s.outcome.error.FileNotFound? &&
            s.outcome.error.path !in files
  {
    assert FirstMissing(files, groupPath, newScale, 0).Some?;
  }

  /** With every level present, a run is exactly `add_downscale`. */
  lemma MainAddsLevel(files: map<string, Attributes>, container: string, groupArg: string,
                      newScaleArg: string, downsamplingArg: string)
    requires ParseInt(newScaleArg).Some? && ParseDownsampling(downsamplingArg).Success?
    requires forall t :: 0 <= t <= ParseInt(newScaleArg).value ==>
                         ScaleAttrsPath(PathDiv(container, GroupName(groupArg)), t) in files
    ensures MainSpec(files, container, groupArg, newScaleArg, downsamplingArg) ==
            AddDownscaleSpec(files, PathDiv(container, GroupName(groupArg)), ParseInt(newScaleArg).value,
                             ParseDownsampling(downsamplingArg).value, AsWritten)
  {
    MainAfterArguments(files, container, groupArg, newScaleArg, downsamplingArg);
    LevelCheckPasses(files, PathDiv(container, GroupName(groupArg)), ParseInt(newScaleArg).value,
                     ParseDownsampling(downsamplingArg).value);
  }

  lemma LevelCheckPasses(files: map<string, Attributes>, groupPath: string, newScale: int, d: Downsampling)
    requires forall t :: 0 <= t <= newScale ==> ScaleAttrsPath(groupPath, t) in files
    ensures LevelsChecked(files, groupPath, newScale, d) == AddDownscaleSpec(files, groupPath, newScale, d, AsWritten)
  {
    assert FirstMissing(files, groupPath, newScale, 0).None?;
  }
}
