/** The signature engine that recognises a file's type from its bytes
    (src/sourceChecker/DetectFileType.js): rule lists folded by `_detect`,
    detections merged by `_getRuleDetection`, signatures validated once and
    cached, and `fromBuffer` trying each signature and then each custom function. */
module FileType {
  import opened Common

  // ---------------------------------------------------------------------------
  // Detections
  // ---------------------------------------------------------------------------

  /** The `ext`, `mime` and `iana` keys a rule, a signature or a detection may
      carry; `None` is a key that is absent (`'ext' in rule` is false). */
  datatype Fields = Fields(ext: Option<string>, mime: Option<string>, iana: Option<string>)

  const NoFields := Fields(None, None, None)

  /** Copies onto `g` every key that `f` has. */
  function Merge(g: Fields, f: Fields): Fields {
    Fields(if f.ext.Some? then f.ext else g.ext,
           if f.mime.Some? then f.mime else g.mime,
           if f.iana.Some? then f.iana else g.iana)
  }

  /** What `_getRuleDetection` and `_detect` return: `false`, `true`, or an
      object holding the keys collected so far. */
  datatype Detection = Undetected | Detected | Found(fields: Fields)

  /** JavaScript truthiness of a detection: every object is truthy. */
  predicate Truthy(d: Detection) {
    !d.Undetected?
  }

  function FieldsOf(d: Detection): Fields {
    if d.Found? then d.fields else NoFields
  }

  /** An argument of `_getRuleDetection`: a boolean, or an object (a rule, a
      signature, or an earlier detection) whose keys are copied. */
  datatype Arg = Flag(flag: bool) | Object(keys: Fields)

  /** A detection passed back in as an argument. */
  function AsArg(d: Detection): Arg {
    match d
    case Undetected => Flag(false)
    case Detected => Flag(true)
    case Found(f) => Object(f)
  }

  /** One turn of the loop in `_getRuleDetection`: `false` resets, `true` keeps
      an object and otherwise gives `true`, and an object's keys are copied onto
      the object built so far (a fresh one when there is none). */
  function Absorb(v: Detection, a: Arg): Detection {
    match a
    case Flag(b) => if !b then Undetected else if v.Undetected? then Detected else v
    case Object(f) => Found(Merge(FieldsOf(v), f))
  }

  /** `_getRuleDetection(args...)`: the loop folded over the arguments, from `false`. */
  function RuleDetection(args: seq<Arg>): Detection
    decreases |args|
  {
    if args == [] then Undetected
    else Absorb(RuleDetection(args[..|args| - 1]), args[|args| - 1])
  }

  /** `_getRuleDetection` as the source writes it: a loop updating `v`. */
  method GetRuleDetection(args: seq<Arg>) returns (v: Detection)
    ensures v == RuleDetection(args)
  {
    v := Undetected;
    var i := 0;
    while i < |args|
      invariant 0 <= i <= |args|
      invariant v == RuleDetection(args[..i])
    {
      assert args[..i + 1][..i] == args[..i];
      v := Absorb(v, args[i]);
      i := i + 1;
    }
    assert args[..|args|] == args;
  }

  /** The position just after the last `false` among the arguments (0 when none is `false`). */
  function Reset(args: seq<Arg>): (r: nat)
    ensures r <= |args|
    decreases |args|
  {
    if args == [] then 0
    else if args[|args| - 1] == Flag(false) then |args|
    else Reset(args[..|args| - 1])
  }

  datatype Key = Ext | Mime | Iana

  function Get(f: Fields, k: Key): Option<string> {
    match k
    case Ext => f.ext
    case Mime => f.mime
    case Iana => f.iana
  }

  /** The value of key `k` in the last object among `args[lo..]` that has it. */
  function Latest(args: seq<Arg>, lo: nat, k: Key): Option<string>
    requires lo <= |args|
    decreases |args|
  {
    if |args| == lo then None
    else
      var a := args[|args| - 1];
      if a.Object? && Get(a.keys, k).Some? then Get(a.keys, k)
      else Latest(args[..|args| - 1], lo, k)
  }

  /** What `_getRuleDetection` promises, stated without its loop: nothing after
      the last `false` gives `false`; only booleans after it give `true`; and
      otherwise each key holds the value of the last object after it that has
      that key. */
  function Expected(args: seq<Arg>): Detection {
    var lo := Reset(args);
    if lo == |args| then Undetected
    else if forall i | lo <= i < |args| :: args[i].Flag? then Detected
    else Found(Fields(Latest(args, lo, Ext), Latest(args, lo, Mime), Latest(args, lo, Iana)))
  }

  lemma {:induction false} LatestOfFlags(args: seq<Arg>, lo: nat, k: Key)
    requires lo <= |args|
    requires forall i | lo <= i < |args| :: args[i].Flag?
    ensures Latest(args, lo, k) == None
    decreases |args|
  {
    if |args| != lo {
      LatestOfFlags(args[..|args| - 1], lo, k);
    }
  }

  /** The fold computes the reference meaning for every argument list. */
  lemma {:induction false} RuleDetectionMeaning(args: seq<Arg>)
    ensures RuleDetection(args) == Expected(args)
    decreases |args|
  {
    if args != [] {
      var init := args[..|args| - 1];
      var a := args[|args| - 1];
      RuleDetectionMeaning(init);
      var lo := Reset(init);
      assert forall i | lo <= i < |init| :: args[i] == init[i];
      match a
      case Flag(b) =>
        if b {
          assert Reset(args) == lo;
          if lo < |init| {
            assert forall k :: Latest(args, lo, k) == Latest(init, lo, k);
          }
        }
      case Object(f) =>
        assert Reset(args) == lo;
        assert !args[|args| - 1].Flag?;
        if lo == |init| {
          assert RuleDetection(init) == Undetected;
          assert Latest(args, lo, Ext) == f.ext;
          assert Latest(args, lo, Mime) == f.mime;
          assert Latest(args, lo, Iana) == f.iana;
        } else if forall i | lo <= i < |init| :: init[i].Flag? {
          LatestOfFlags(init, lo, Ext);
          LatestOfFlags(init, lo, Mime);
          LatestOfFlags(init, lo, Iana);
        }
    }
  }

  /** The two-argument call `_getRuleDetection(detectedRule, result)` is one turn of the loop. */
  lemma {:induction false} AbsorbIsRuleDetection(d: Detection, a: Arg)
    ensures RuleDetection([AsArg(d), a]) == Absorb(d, a)
  {
    assert [AsArg(d), a][..1] == [AsArg(d)];
    assert [AsArg(d)][..0] == [];
    assert RuleDetection([AsArg(d)]) == Absorb(Undetected, AsArg(d));
    if d.Found? {
      assert Merge(NoFields, d.fields) == d.fields;
    }
  }

  /** `_isReturnFalse`: whether `every` goes on to the next rule. */
  datatype ListType = AndList | OrList

  function Continues(d: Detection, list: ListType): bool {
    if !Truthy(d) && list == AndList then false
    else if Truthy(d) && list == OrList then false
    else true
  }

  // ---------------------------------------------------------------------------
  // Byte searches (Buffer.indexOf, includes, slice and compare)
  // ---------------------------------------------------------------------------

  ghost predicate OccursAt(hay: seq<byte>, needle: seq<byte>, i: int) {
    0 <= i && i + |needle| <= |hay| && hay[i..i + |needle|] == needle
  }

  /** The first position at or after `from` where `needle` occurs, or -1. */
  function IndexFrom(hay: seq<byte>, needle: seq<byte>, from: nat): (r: int)
    ensures r == -1 || (from <= r && OccursAt(hay, needle, r))
    ensures forall j | from <= j && (r == -1 || j < r) :: !OccursAt(hay, needle, j)
    decreases |hay| - from
  {
    if from + |needle| > |hay| then -1
    else if hay[from..from + |needle|] == needle then from
    else IndexFrom(hay, needle, from + 1)
  }

  /** `buf.indexOf(needle)` from offset 0 (an empty needle is found at 0). */
  function IndexOf(hay: seq<byte>, needle: seq<byte>): int {
    IndexFrom(hay, needle, 0)
  }

  /** `buf.includes(needle)`. */
  function Includes(hay: seq<byte>, needle: seq<byte>): bool {
    IndexOf(hay, needle) != -1
  }

  /** A `buf.slice` position: a negative one counts from the end, and both are clamped to the buffer. */
  function SlicePoint(x: int, len: nat): (r: nat)
    ensures r <= len
  {
    if x < 0 then (if x + len < 0 then 0 else x + len)
    else if x > len then len else x
  }

  /** `buf.slice(s, e)`. */
  function Slice(buf: seq<byte>, s: int, e: int): seq<byte> {
    var a := SlicePoint(s, |buf|);
    var b := SlicePoint(e, |buf|);
    if a >= b then [] else buf[a..b]
  }

  /** The source range `Buffer.compare` compares against the rule bytes: empty when `s >= e`. */
  function Window(buf: seq<byte>, s: nat, e: nat): seq<byte>
    requires e <= |buf|
  {
    if s >= e then [] else buf[s..e]
  }

  // ---------------------------------------------------------------------------
  // Rules
  // ---------------------------------------------------------------------------

  /** The ids recorded by search rules, mapped to the index where their bytes were found. */
  type Indices = map<string, nat>

  /** A rule's `search` object: `id`, `bytes`, `start` and `search_ref`. Its
      `end` is left out since `indexOf` ignores it. */
  datatype Search = Search(id: string, bytes: seq<byte>, start: Option<int>, searchRef: Option<string>)

  /** A rule of a signature. `ruleType` is the `type` key; `hasRules` says
      whether a `rules` key is present; `bytes` are the leaf's bytes, already
      decoded from hex. */
  datatype Rule = Rule(ruleType: Option<string>, search: Option<Search>, hasRules: bool,
                       rules: seq<Rule>, bytes: seq<byte>, start: Option<int>, end: Option<int>,
                       searchRef: Option<string>, recodeText: bool, fields: Fields)

  /** How `_detect` dispatches on `rule.type`; anything else is `Unsupported`. */
  datatype Kind = Or | And | Default | Equal | NotEqual | Contains | NotContains | Unsupported

  function KindOf(t: Option<string>): Kind {
    if t == Some("or") then Or
    else if t == Some("and") then And
    else if t == Some("default") then Default
    else if t == Some("equal") then Equal
    else if t == Some("notEqual") then NotEqual
    else if t == Some("contains") then Contains
    else if t == Some("notContains") then NotContains
    else Unsupported
  }

  /** What a `search_ref` key gives: no key; `-1` when there is no search
      data yet; `undefined` (so NaN offsets) for an id never recorded; or the
      recorded index. */
  datatype Ref = NoRef | NoData | Unrecorded | At(index: nat)

  function Resolve(ref: Option<string>, indices: Option<Indices>): Ref {
    if ref.None? then NoRef
    else if indices.None? then NoData
    else if ref.value in indices.value then At(indices.value[ref.value])
    else Unrecorded
  }

  /** The index a search rule reports: -1 when its start is -1, and otherwise
      the first occurrence of its bytes in the whole buffer. */
  function SearchIndex(buf: seq<byte>, s: Search, indices: Option<Indices>): int {
    var base := s.start.GetOr(0);
    match Resolve(s.searchRef, indices)
    case NoRef => if base == -1 then -1 else IndexOf(buf, s.bytes)
    case NoData => -1
    case Unrecorded => IndexOf(buf, s.bytes)
    case At(i) => if base + i == -1 then -1 else IndexOf(buf, s.bytes)
  }

  /** The `start` and `end` a leaf rule computes, before `end` is clamped;
      `None` stands for NaN. */
  datatype Bounds = Bounds(start: Option<int>, end: Option<int>)

  function LeafBounds(rule: Rule, indices: Option<Indices>, len: nat): Bounds {
    var base := rule.start.GetOr(0);
    match Resolve(rule.searchRef, indices)
    case NoRef => Bounds(Some(base), Some(rule.end.GetOr(len)))
    case NoData => Bounds(Some(-1), Some(rule.end.GetOr(len)))
    case Unrecorded => Bounds(None, None)
    case At(i) => Bounds(Some(base + i), if rule.end.Some? then Some(rule.end.value + i) else None)
  }

  /** `rule.end || buffer.length`: a missing or zero end is the buffer's length. */
  function EndOrLength(end: Option<int>, len: nat): int {
    if end.None? || end.value == 0 then len else end.value
  }

  function Min(a: int, b: int): int {
    if a <= b then a else b
  }

  /** The value of `result` after a leaf rule: `None` when `Buffer.compare`
      throws because an offset is NaN or outside the buffer. A negative start
      makes every leaf false, and an unsupported type leaves `result` true. */
  function LeafTest(buf: seq<byte>, rule: Rule, indices: Option<Indices>): Option<bool> {
    var b := LeafBounds(rule, indices, |buf|);
    var end := if b.end.Some? then Some(Min(b.end.value, |buf|)) else None;
    var base := rule.start.GetOr(0);
    if b.start.Some? && b.start.value < 0 then Some(false)
    else match KindOf(rule.ruleType)
      case Equal =>
        if b.start.None? || end.None? || end.value < 0 then None
        else Some(Window(buf, b.start.value, end.value) == rule.bytes)
      case NotEqual =>
        if base < 0 || end.None? || end.value < 0 then None
        else Some(Window(buf, base, end.value) != rule.bytes)
      case Contains => Some(Includes(Slice(buf, base, EndOrLength(rule.end, |buf|)), rule.bytes))
      case NotContains => Some(!Includes(Slice(buf, base, EndOrLength(rule.end, |buf|)), rule.bytes))
      case _ => Some(true)
  }

  // ---------------------------------------------------------------------------
  // Evaluation (`_detect`)
  // ---------------------------------------------------------------------------

  /** The text recoding of a buffer (`_getTextBuffer`, which calls jschardet
      and iconv): `None` where the source gets `null`. */
  type Recoder = seq<byte> -> Option<seq<byte>>

  /** The state after one rule: where `detectedRule` and `searchData` stand and
      whether `every` goes on, or `Threw` for a TypeError or RangeError. */
  datatype Step = Threw | Step(detection: Detection, indices: Option<Indices>, proceed: bool)

  /** The value `_detect` returns, with its `searchData` at the end. */
  datatype Outcome = Thrown | Evaluated(detection: Detection, indices: Option<Indices>)

  /** The search data after a nested `_detect`: it shares the caller's map
      when the caller had one, and a map it created itself is lost. */
  function Shared(outer: Option<Indices>, inner: Option<Indices>): Option<Indices> {
    if outer.Some? then inner else outer
  }

  /** The `result` an and/or rule passes on: its nested detection, with `true`
      replaced by the rule itself. */
  function NestedResult(d: Detection, rule: Rule): Arg {
    match d
    case Undetected => Flag(false)
    case Detected => Object(rule.fields)
    case Found(f) => Object(f)
  }

  /** Where a rule's `search` leaves the search data: `None` when its bytes are
      not found, else the data with the found index recorded under its id (a
      fresh map when there was none). */
  function Searched(buf: seq<byte>, rule: Rule, indices: Option<Indices>): Option<Option<Indices>> {
    if rule.search.None? then Some(indices)
    else
      var s := rule.search.value;
      var at := SearchIndex(buf, s, indices);
      if at < 0 then None else Some(Some(indices.GetOr(map[])[s.id := at]))
  }

  /** `ruleEvaluator`: one rule of a list of type `list`, given `detectedRule`
      and `searchData` before it. */
  function Evaluate(buf: seq<byte>, rule: Rule, list: ListType, detected: Detection,
                    indices: Option<Indices>, recode: Recoder): Step
    decreases rule, 2
  {
    var searched := Searched(buf, rule, indices);
    if searched.None? then
      var d := Absorb(detected, Flag(false));
      Step(d, indices, Continues(d, list))
    else Apply(buf, rule, list, detected, searched.value, recode)
  }

  /** The part of `ruleEvaluator` after the search: the rule's own test, with the
      search data `sd` the search left. */
  function Apply(buf: seq<byte>, rule: Rule, list: ListType, detected: Detection,
                 sd: Option<Indices>, recode: Recoder): Step
    decreases rule, 1
  {
    var kind := KindOf(rule.ruleType);
    if kind == Or || kind == And then
      if !rule.hasRules then Threw
      else
        var inner := if kind == Or then OrList else AndList;
        var first := Detect(buf, rule.rules, inner, Detected, sd, recode);
        if first.Thrown? then Threw
        else
          var sd1 := Shared(sd, first.indices);
          var second :=
            if !Truthy(first.detection) && rule.recodeText && recode(buf).Some?
            then Detect(recode(buf).value, rule.rules, inner, Detected, sd1, recode)
            else Evaluated(first.detection, sd1);
          if second.Thrown? then Threw
          else
            var d := Absorb(detected, NestedResult(second.detection, rule));
            Step(d, Shared(sd1, second.indices), Continues(d, list))
    else if kind == Default then
      var d := Absorb(detected, Object(rule.fields));
      Step(d, sd, Continues(d, list))
    else
      var test := LeafTest(buf, rule, sd);
      if test.None? then Threw
      else
        var d := Absorb(detected, if test.value then Object(rule.fields) else Flag(false));
        Step(d, sd, Continues(d, list))
  }

  /** `rules.every(ruleEvaluator)` from `detectedRule` and `searchData`. */
  function Detect(buf: seq<byte>, rules: seq<Rule>, list: ListType, detected: Detection,
                  indices: Option<Indices>, recode: Recoder): Outcome
    decreases rules
  {
    if rules == [] then Evaluated(detected, indices)
    else
      match Evaluate(buf, rules[0], list, detected, indices, recode)
      case Threw => Thrown
      case Step(d, sd, go) =>
        if go then Detect(buf, rules[1..], list, d, sd, recode) else Evaluated(d, sd)
  }

  /** The `Map` that search rules fill, shared by the nested `_detect` calls it is passed to. */
  class SearchData {
    var indices: Indices

    constructor()
      ensures indices == map[]
    {
      indices := map[];
    }
  }

  function IndicesOf(data: SearchData?): Option<Indices>
    reads data
  {
    if data == null then None else Some(data.indices)
  }

  /** `_detect(buffer, rules, type, searchData)`: walks the rules with `every`,
      updating `detectedRule` and, through `data`, the caller's search map. */
  method DetectRules(buf: seq<byte>, rules: seq<Rule>, list: ListType, data: SearchData?,
                     recode: Recoder) returns (thrown: bool, detection: Detection)
    modifies data
    ensures var o := Detect(buf, rules, list, Detected, old(IndicesOf(data)), recode);
      thrown == o.Thrown? &&
      (!thrown ==> detection == o.detection && (data != null ==> o.indices == Some(data.indices)))
    decreases rules
  {
    ghost var start := old(IndicesOf(data));
    var searchData := data;
    detection := Detected;
    thrown := false;
    var go := true;
    var i := 0;
    while i < |rules| && go
      invariant 0 <= i <= |rules|
      invariant data != null ==> searchData == data
      invariant data == null ==> searchData == null || fresh(searchData)
      invariant Detect(buf, rules, list, Detected, start, recode)
        == if go then Detect(buf, rules[i..], list, detection, IndicesOf(searchData), recode)
           else Evaluated(detection, IndicesOf(searchData))
      decreases |rules| - i
    {
      assert rules[i..][0] == rules[i] && rules[i..][1..] == rules[i + 1..];
      var t, d, g, after := EvaluateRule(buf, rules[i], list, detection, searchData, recode);
      if t {
        thrown := true;
        return;
      }
      detection, go, searchData := d, g, after;
      i := i + 1;
    }
  }

  /** `ruleEvaluator`: evaluates one rule and returns the new `detectedRule`,
      `every`'s verdict, and the search map, created when a search succeeds
      without one. */
  method EvaluateRule(buf: seq<byte>, rule: Rule, list: ListType, detected: Detection,
                      data: SearchData?, recode: Recoder)
    returns (thrown: bool, detection: Detection, go: bool, after: SearchData?)
    modifies data
    ensures data != null ==> after == data
    ensures data == null ==> after == null || fresh(after)
    ensures var s := Evaluate(buf, rule, list, detected, old(IndicesOf(data)), recode);
      thrown == s.Threw? &&
      (!thrown ==> detection == s.detection && go == s.proceed && IndicesOf(after) == s.indices)
    decreases rule, 2
  {
    thrown, detection, go, after := false, detected, true, data;
    if rule.search.Some? {
      var s := rule.search.value;
      var at := SearchIndex(buf, s, IndicesOf(data));
      if at < 0 {
        AbsorbIsRuleDetection(detected, Flag(false));
        detection := GetRuleDetection([AsArg(detected), Flag(false)]);
        go := Continues(detection, list);
        return;
      }
      if after == null {
        after := new SearchData();
      }
      after.indices := after.indices[s.id := at];
    }
    thrown, detection, go := ApplyRule(buf, rule, list, detected, after, recode);
  }

  /** The rule's own test once the search is done, with `after` holding what the
      search left. */
  method ApplyRule(buf: seq<byte>, rule: Rule, list: ListType, detected: Detection,
                   after: SearchData?, recode: Recoder)
    returns (thrown: bool, detection: Detection, go: bool)
    modifies after
    ensures var s := Apply(buf, rule, list, detected, old(IndicesOf(after)), recode);
      thrown == s.Threw? &&
      (!thrown ==> detection == s.detection && go == s.proceed && IndicesOf(after) == s.indices)
    decreases rule, 1
  {
    thrown, detection, go := false, detected, true;
    var kind := KindOf(rule.ruleType);
    var result: Arg;
    if kind == Or || kind == And {
      if !rule.hasRules {
        thrown := true;
        return;
      }
      var inner := if kind == Or then OrList else AndList;
      var t, r := DetectRules(buf, rule.rules, inner, after, recode);
      if t {
        thrown := true;
        return;
      }
      if !Truthy(r) && rule.recodeText && recode(buf).Some? {
        t, r := DetectRules(recode(buf).value, rule.rules, inner, after, recode);
        if t {
          thrown := true;
          return;
        }
      }
      result := NestedResult(r, rule);
    } else if kind == Default {
      result := Object(rule.fields);
    } else {
      var test := LeafTest(buf, rule, IndicesOf(after));
      if test.None? {
        thrown := true;
        return;
      }
      result := if test.value then Object(rule.fields) else Flag(false);
    }
    AbsorbIsRuleDetection(detected, result);
    detection := GetRuleDetection([AsArg(detected), result]);
    go := Continues(detection, list);
  }

  // ---------------------------------------------------------------------------
  // What a single rule tests
  // ---------------------------------------------------------------------------

  /** A `search_ref` that names a search when no search has produced data yet
      makes any leaf rule false. */
  lemma {:induction false} UnresolvedRefFails(buf: seq<byte>, rule: Rule)
    requires rule.searchRef.Some?
    ensures LeafTest(buf, rule, None) == Some(false)
  {
  }

  /** `bytes` lies in `buf` at `at`, with nothing after it up to `end`. */
  ghost predicate MatchesAt(buf: seq<byte>, bytes: seq<byte>, at: int, end: int) {
    |bytes| == (if end > at then end - at else 0) &&
    forall j | 0 <= j < |bytes| :: 0 <= at + j < |buf| && buf[at + j] == bytes[j]
  }

  lemma {:induction false} WindowMatches(buf: seq<byte>, bytes: seq<byte>, s: nat, e: nat)
    requires e <= |buf|
    ensures Window(buf, s, e) == bytes <==> MatchesAt(buf, bytes, s, e)
  {
    if MatchesAt(buf, bytes, s, e) && s < e {
      assert buf[s..e] == bytes;
    }
  }

  /** An `equal` leaf without `search_ref` holds exactly when its bytes fill
      `buf[start, min(end, len))`; a negative start makes it false and a
      negative end makes `Buffer.compare` throw. */
  lemma {:induction false} EqualMeaning(buf: seq<byte>, rule: Rule, indices: Option<Indices>)
    requires KindOf(rule.ruleType) == Equal && rule.searchRef.None?
    ensures var start := rule.start.GetOr(0);
      var end := Min(rule.end.GetOr(|buf|), |buf|);
      LeafTest(buf, rule, indices) ==
        if start < 0 then Some(false)
        else if end < 0 then None
        else Some(MatchesAt(buf, rule.bytes, start, end))
  {
    var start := rule.start.GetOr(0);
    var end := Min(rule.end.GetOr(|buf|), |buf|);
    if 0 <= start && 0 <= end {
      WindowMatches(buf, rule.bytes, start, end);
    }
  }

  /** A `notEqual` leaf compares from the rule's own `start || 0`, which a
      `search_ref` does not shift, up to the clamped, shifted end. It is false
      when the shifted start is negative. `Buffer.compare` throws on a negative
      unshifted start, on a negative end, and on the NaN end of a missing `end`
      or an unrecorded search. */
  lemma {:induction false} NotEqualMeaning(buf: seq<byte>, rule: Rule, indices: Option<Indices>)
    requires KindOf(rule.ruleType) == NotEqual
    ensures var base := rule.start.GetOr(0);
      rule.searchRef.None? ==>
        var end := Min(rule.end.GetOr(|buf|), |buf|);
        LeafTest(buf, rule, indices) ==
          if base < 0 then Some(false)
          else if end < 0 then None
          else Some(!MatchesAt(buf, rule.bytes, base, end))
    ensures var base := rule.start.GetOr(0);
      rule.searchRef.Some? && indices.Some? && rule.searchRef.value in indices.value ==>
        var i := indices.value[rule.searchRef.value];
        LeafTest(buf, rule, indices) ==
          if base + i < 0 then Some(false)
          else if base < 0 || rule.end.None? || Min(rule.end.value + i, |buf|) < 0 then None
          else Some(!MatchesAt(buf, rule.bytes, base, Min(rule.end.value + i, |buf|)))
    ensures rule.searchRef.Some? && indices.Some? && rule.searchRef.value !in indices.value ==>
      LeafTest(buf, rule, indices).None?
  {
    var base := rule.start.GetOr(0);
    match Resolve(rule.searchRef, indices)
    case NoRef =>
      var end := Min(rule.end.GetOr(|buf|), |buf|);
      if 0 <= base && 0 <= end {
        WindowMatches(buf, rule.bytes, base, end);
      }
    case At(i) =>
      if 0 <= base && rule.end.Some? && 0 <= Min(rule.end.value + i, |buf|) {
        WindowMatches(buf, rule.bytes, base, Min(rule.end.value + i, |buf|));
      }
    case _ =>
  }

  /** Without `search_ref`, `notEqual` is `equal` negated: both are false for a
      negative start, both throw together, and otherwise they disagree. */
  lemma {:induction false} NotEqualNegatesEqual(buf: seq<byte>, rule: Rule, indices: Option<Indices>)
    requires rule.searchRef.None?
    ensures var eq := LeafTest(buf, rule.(ruleType := Some("equal")), indices);
      var ne := LeafTest(buf, rule.(ruleType := Some("notEqual")), indices);
      if rule.start.GetOr(0) < 0 then eq == Some(false) && ne == Some(false)
      else (eq.None? <==> ne.None?) && (eq.Some? ==> ne.value == !eq.value)
  {
    EqualMeaning(buf, rule.(ruleType := Some("equal")), indices);
    NotEqualMeaning(buf, rule.(ruleType := Some("notEqual")), indices);
  }

  /** After a recorded search the two leaves are not negations: `equal` shifts
      its start by the index and `notEqual` does not, so on [1, 2] with bytes
      [2], start 0, end 1 and the search `s` recorded at 1, both hold. */
  lemma ShiftedEqualAndNotEqualBothHold()
    ensures var r := Rule(Some("equal"), None, false, [], [2], Some(0), Some(1), Some("s"), false,
                          Fields(None, None, None));
      var data := Some(map["s" := 1]);
      LeafTest([1, 2], r, data) == Some(true)
      && LeafTest([1, 2], r.(ruleType := Some("notEqual")), data) == Some(true)
  {
    var r := Rule(Some("equal"), None, false, [], [2], Some(0), Some(1), Some("s"), false,
                  Fields(None, None, None));
    var buf: seq<byte> := [1, 2];
    assert Window(buf, 1, 2) == [2];
    assert Window(buf, 0, 2) == [1, 2];
  }

  /** An `equal` leaf whose `search_ref` names a recorded search shifts both
      its start and its end by the recorded index; without an `end` the
      shifted end is NaN and `Buffer.compare` throws. */
  lemma {:induction false} EqualOffsetByRef(buf: seq<byte>, rule: Rule, indices: Indices)
    requires KindOf(rule.ruleType) == Equal
    requires rule.searchRef.Some? && rule.searchRef.value in indices
    ensures var i := indices[rule.searchRef.value];
      var start := rule.start.GetOr(0) + i;
      LeafTest(buf, rule, Some(indices)) ==
        if start < 0 then Some(false)
        else if rule.end.None? || Min(rule.end.value + i, |buf|) < 0 then None
        else Some(MatchesAt(buf, rule.bytes, start, Min(rule.end.value + i, |buf|)))
  {
    var i := indices[rule.searchRef.value];
    var start := rule.start.GetOr(0) + i;
    if 0 <= start && rule.end.Some? && 0 <= Min(rule.end.value + i, |buf|) {
      WindowMatches(buf, rule.bytes, start, Min(rule.end.value + i, |buf|));
    }
  }

  /** `Buffer.includes` holds exactly when the needle occurs somewhere. */
  lemma {:induction false} IncludesMeaning(hay: seq<byte>, needle: seq<byte>)
    ensures Includes(hay, needle) <==> exists j :: OccursAt(hay, needle, j)
  {
    if !Includes(hay, needle) {
      assert forall j | 0 <= j :: !OccursAt(hay, needle, j);
    }
  }

  /** A `contains` leaf holds exactly when its bytes occur in
      `buf.slice(start || 0, end || len)`, and `notContains` is its negation;
      both ignore `search_ref` offsets. */
  lemma {:induction false} ContainsMeaning(buf: seq<byte>, rule: Rule, indices: Option<Indices>)
    requires KindOf(rule.ruleType) == Contains || KindOf(rule.ruleType) == NotContains
    requires rule.searchRef.None? && 0 <= rule.start.GetOr(0)
    ensures var hay := Slice(buf, rule.start.GetOr(0), EndOrLength(rule.end, |buf|));
      var found := exists j :: OccursAt(hay, rule.bytes, j);
      LeafTest(buf, rule, indices) == Some(if KindOf(rule.ruleType) == Contains then found else !found)
  {
    IncludesMeaning(Slice(buf, rule.start.GetOr(0), EndOrLength(rule.end, |buf|)), rule.bytes);
  }

  /** A negative start makes a `contains` or a `notContains` leaf false, where
      `slice` alone would count it from the end of the buffer. */
  lemma {:induction false} ContainsNegativeStart(buf: seq<byte>, rule: Rule, indices: Option<Indices>)
    requires KindOf(rule.ruleType) == Contains || KindOf(rule.ruleType) == NotContains
    requires rule.searchRef.None? && rule.start.GetOr(0) < 0
    ensures LeafTest(buf, rule, indices) == Some(false)
  {
  }

  /** A recorded `search_ref` does not move a `contains` or `notContains` slice:
      with a start that is not negative, the leaf is the one without it. */
  lemma {:induction false} ContainsIgnoresRef(buf: seq<byte>, rule: Rule, indices: Indices)
    requires KindOf(rule.ruleType) == Contains || KindOf(rule.ruleType) == NotContains
    requires rule.searchRef.Some? && rule.searchRef.value in indices
    requires 0 <= rule.start.GetOr(0)
    ensures LeafTest(buf, rule, Some(indices)) == LeafTest(buf, rule.(searchRef := None), Some(indices))
  {
  }

  /** A search whose bytes are not found makes the rule's detection `false`,
      leaves the search data alone, and lets only an or-list go on. */
  lemma {:induction false} SearchMissFails(buf: seq<byte>, rule: Rule, list: ListType, detected: Detection,
                        indices: Option<Indices>, recode: Recoder)
    requires rule.search.Some? && SearchIndex(buf, rule.search.value, indices) < 0
    ensures Evaluate(buf, rule, list, detected, indices, recode) == Step(Undetected, indices, list == OrList)
  {
  }

  /** A search that succeeds records, under its id, the first index where its
      bytes occur; a leaf or default rule then keeps that data. */
  lemma {:induction false} SearchRecordsIndex(buf: seq<byte>, rule: Rule, list: ListType, detected: Detection,
                           indices: Option<Indices>, recode: Recoder)
    requires rule.search.Some? && SearchIndex(buf, rule.search.value, indices) >= 0
    requires KindOf(rule.ruleType) != Or && KindOf(rule.ruleType) != And
    ensures var s := rule.search.value;
      var step := Evaluate(buf, rule, list, detected, indices, recode);
      step.Step? ==>
        step.indices.Some? && s.id in step.indices.value &&
        var at := step.indices.value[s.id];
        OccursAt(buf, s.bytes, at) && (forall j | 0 <= j < at :: !OccursAt(buf, s.bytes, j)) &&
        (indices.Some? ==> forall k | k in indices.value && k != s.id :: k in step.indices.value && step.indices.value[k] == indices.value[k])
  {
  }

  // ---------------------------------------------------------------------------
  // What a rule list tests
  // ---------------------------------------------------------------------------

  /** A leaf rule without a search, whose test on `buf` does not throw. */
  predicate SimpleLeaf(buf: seq<byte>, rule: Rule, indices: Option<Indices>) {
    var k := KindOf(rule.ruleType);
    rule.search.None? && k != Or && k != And && k != Default && LeafTest(buf, rule, indices).Some?
  }

  predicate Holds(buf: seq<byte>, rule: Rule, indices: Option<Indices>) {
    LeafTest(buf, rule, indices) == Some(true)
  }

  /** One simple leaf: its result is absorbed and `every` goes on as `_isReturnFalse` says. */
  lemma {:induction false} LeafStep(buf: seq<byte>, rule: Rule, list: ListType, d: Detection,
                                    indices: Option<Indices>, recode: Recoder)
    requires SimpleLeaf(buf, rule, indices)
    ensures var d' := Absorb(d, if Holds(buf, rule, indices) then Object(rule.fields) else Flag(false));
      Evaluate(buf, rule, list, d, indices, recode) == Step(d', indices, Continues(d', list))
  {
  }

  lemma {:induction false} AndFromTruthy(buf: seq<byte>, rules: seq<Rule>, d: Detection,
                                         indices: Option<Indices>, recode: Recoder)
    requires Truthy(d)
    requires forall i | 0 <= i < |rules| :: SimpleLeaf(buf, rules[i], indices)
    ensures var o := Detect(buf, rules, AndList, d, indices, recode);
      o.Evaluated? && o.indices == indices &&
      (Truthy(o.detection) <==> forall i | 0 <= i < |rules| :: Holds(buf, rules[i], indices))
    decreases rules
  {
    if rules != [] {
      LeafStep(buf, rules[0], AndList, d, indices, recode);
      if Holds(buf, rules[0], indices) {
        var d' := Absorb(d, Object(rules[0].fields));
        AndFromTruthy(buf, rules[1..], d', indices, recode);
        assert forall i | 1 <= i < |rules| :: rules[i] == rules[1..][i - 1];
      }
    }
  }

  /** An and-list of simple leaves detects exactly when every leaf holds (so
      an empty list detects) and leaves the search data as it was. */
  lemma {:induction false} AndListAllHold(buf: seq<byte>, rules: seq<Rule>, indices: Option<Indices>, recode: Recoder)
    requires forall i | 0 <= i < |rules| :: SimpleLeaf(buf, rules[i], indices)
    ensures var o := Detect(buf, rules, AndList, Detected, indices, recode);
      o.Evaluated? && o.indices == indices &&
      (Truthy(o.detection) <==> forall i | 0 <= i < |rules| :: Holds(buf, rules[i], indices))
  {
    AndFromTruthy(buf, rules, Detected, indices, recode);
  }

  /** Past a first leaf that fails, the tail of an or-list holds the same simple
      leaves and some leaf holds in it exactly when some leaf holds in the whole list. */
  lemma OrTail(buf: seq<byte>, rules: seq<Rule>, indices: Option<Indices>)
    requires |rules| > 0 && !Holds(buf, rules[0], indices)
    requires forall i | 0 <= i < |rules| :: SimpleLeaf(buf, rules[i], indices)
    ensures forall j | 0 <= j < |rules[1..]| :: SimpleLeaf(buf, rules[1..][j], indices)
    ensures (exists i | 0 <= i < |rules| :: Holds(buf, rules[i], indices))
      <==> exists j | 0 <= j < |rules[1..]| :: Holds(buf, rules[1..][j], indices)
  {
    TailLeaves(buf, rules, indices);
    if exists i | 0 <= i < |rules| :: Holds(buf, rules[i], indices) {
      var i :| 0 <= i < |rules| && Holds(buf, rules[i], indices);
      HoldsInTail(buf, rules, indices, i - 1);
    }
    if exists j | 0 <= j < |rules[1..]| :: Holds(buf, rules[1..][j], indices) {
      var j :| 0 <= j < |rules[1..]| && Holds(buf, rules[1..][j], indices);
      HoldsInTail(buf, rules, indices, j);
    }
  }

  lemma TailLeaves(buf: seq<byte>, rules: seq<Rule>, indices: Option<Indices>)
    requires |rules| > 0
    requires forall i | 0 <= i < |rules| :: SimpleLeaf(buf, rules[i], indices)
    ensures forall j | 0 <= j < |rules[1..]| :: SimpleLeaf(buf, rules[1..][j], indices)
  {
    forall j | 0 <= j < |rules[1..]|
      ensures SimpleLeaf(buf, rules[1..][j], indices)
    {
      assert rules[1..][j] == rules[j + 1];
    }
  }

  lemma HoldsInTail(buf: seq<byte>, rules: seq<Rule>, indices: Option<Indices>, j: nat)
    requires j + 1 < |rules|
    ensures Holds(buf, rules[1..][j], indices) == Holds(buf, rules[j + 1], indices)
  {
    assert rules[1..][j] == rules[j + 1];
  }

  lemma {:induction false} OrFromFalse(buf: seq<byte>, rules: seq<Rule>, indices: Option<Indices>, recode: Recoder)
    requires forall i | 0 <= i < |rules| :: SimpleLeaf(buf, rules[i], indices)
    ensures var o := Detect(buf, rules, OrList, Undetected, indices, recode);
      o.Evaluated? && o.indices == indices &&
      (Truthy(o.detection) <==> exists i | 0 <= i < |rules| :: Holds(buf, rules[i], indices))
    decreases rules
  {
    if rules != [] {
      LeafStep(buf, rules[0], OrList, Undetected, indices, recode);
      if !Holds(buf, rules[0], indices) {
        OrTail(buf, rules, indices);
        OrFromFalse(buf, rules[1..], indices, recode);
      }
    }
  }

  /** A non-empty or-list of simple leaves detects exactly when some leaf holds
      (an empty one detects, since `detectedRule` starts `true`). */
  lemma {:induction false} OrListSomeHolds(buf: seq<byte>, rules: seq<Rule>, indices: Option<Indices>, recode: Recoder)
    requires |rules| > 0
    requires forall i | 0 <= i < |rules| :: SimpleLeaf(buf, rules[i], indices)
    ensures var o := Detect(buf, rules, OrList, Detected, indices, recode);
      o.Evaluated? && o.indices == indices &&
      (Truthy(o.detection) <==> exists i | 0 <= i < |rules| :: Holds(buf, rules[i], indices))
  {
    LeafStep(buf, rules[0], OrList, Detected, indices, recode);
    if !Holds(buf, rules[0], indices) {
      OrTail(buf, rules, indices);
      OrFromFalse(buf, rules[1..], indices, recode);
    }
  }

  /** Evaluation of an and-list stops at the first simple leaf that fails:
      whatever follows it is never evaluated, even a rule that would throw. */
  lemma {:induction false} AndListStops(buf: seq<byte>, rules: seq<Rule>, rest: seq<Rule>, d: Detection,
                                        indices: Option<Indices>, recode: Recoder)
    requires Truthy(d) && |rules| > 0
    requires forall i | 0 <= i < |rules| :: SimpleLeaf(buf, rules[i], indices)
    requires !Holds(buf, rules[|rules| - 1], indices)
    ensures Detect(buf, rules + rest, AndList, d, indices, recode) == Detect(buf, rules, AndList, d, indices, recode)
    decreases rules
  {
    assert (rules + rest)[0] == rules[0];
    LeafStep(buf, rules[0], AndList, d, indices, recode);
    if |rules| > 1 && Holds(buf, rules[0], indices) {
      assert (rules + rest)[1..] == rules[1..] + rest;
      AndListStops(buf, rules[1..], rest, Absorb(d, Object(rules[0].fields)), indices, recode);
    }
  }

  /** Evaluation of an or-list stops at the first simple leaf that holds. */
  lemma {:induction false} OrListStops(buf: seq<byte>, rules: seq<Rule>, rest: seq<Rule>, d: Detection,
                                       indices: Option<Indices>, recode: Recoder)
    requires |rules| > 0
    requires forall i | 0 <= i < |rules| :: SimpleLeaf(buf, rules[i], indices)
    requires Holds(buf, rules[|rules| - 1], indices)
    ensures Detect(buf, rules + rest, OrList, d, indices, recode) == Detect(buf, rules, OrList, d, indices, recode)
    decreases rules
  {
    assert (rules + rest)[0] == rules[0];
    LeafStep(buf, rules[0], OrList, d, indices, recode);
    if |rules| > 1 && !Holds(buf, rules[0], indices) {
      assert (rules + rest)[1..] == rules[1..] + rest;
      OrListStops(buf, rules[1..], rest, Undetected, indices, recode);
    }
  }

  // ---------------------------------------------------------------------------
  // Validation
  // ---------------------------------------------------------------------------

  /** `_validateRuleType`: the seven supported types are exactly those `_detect` dispatches on. */
  function ValidRuleType(t: Option<string>): (r: bool)
    ensures r <==> KindOf(t) != Unsupported
  {
    t.Some? && t.value in ["or", "and", "contains", "notContains", "equal", "notEqual", "default"]
  }

  datatype RuleProblem = UnsupportedType | MissingRules

  /** What `_validateRules` maps one rule to: an error object, or the keys it provides. */
  datatype RuleCheck = Problem(problem: RuleProblem) | Provides(hasExt: bool, hasMime: bool)

  function CheckRule(rule: Rule): RuleCheck
    decreases rule
  {
    if !ValidRuleType(rule.ruleType) then Problem(UnsupportedType)
    else
      var k := KindOf(rule.ruleType);
      if k == Or || k == And then
        if !rule.hasRules then Problem(MissingRules) else CheckRules(rule.rules)
      else Provides(rule.fields.ext.Some?, rule.fields.mime.Some?)
  }

  /** `_validateRules`: whether some valid rule provides `ext` or `mime`, an
      and/or rule through its own rules. Since `!invalid` is never true of an
      array, a list holding invalid rules is never reported, only skipped. */
  function CheckRules(rules: seq<Rule>): (r: RuleCheck)
    ensures r.Provides?
    ensures r.hasExt <==> exists i | 0 <= i < |rules| :: CheckRule(rules[i]).Provides? && CheckRule(rules[i]).hasExt
    ensures r.hasMime <==> exists i | 0 <= i < |rules| :: CheckRule(rules[i]).Provides? && CheckRule(rules[i]).hasMime
    decreases rules
  {
    if rules == [] then Provides(false, false)
    else
      var h := CheckRule(rules[0]);
      var t := CheckRules(rules[1..]);
      assert forall i | 1 <= i < |rules| :: rules[i] == rules[1..][i - 1];
      if h.Problem? then t else Provides(h.hasExt || t.hasExt, h.hasMime || t.hasMime)
  }

  /** A signature: `type` and `rules` keys (present or not), its rules, its
      `ext`/`mime`/`iana` keys, and `recode_text`. */
  datatype Signature = Signature(hasType: bool, hasRules: bool, rules: seq<Rule>, fields: Fields, recodeText: bool)

  datatype Complaint = NoType | NoRules | NoExt | NoMime

  /** The `{message, signature}` object of an invalid signature. */
  datatype SignatureError = SignatureError(complaint: Complaint, signature: Signature)

  /** `_validateSignature`: the first complaint in the order type, rules, ext,
      mime; an `ext` or `mime` may come from the signature or any valid rule.
      The "invalid rule" complaint can never be produced, since the rule check
      never returns an array. */
  function ValidateSignature(sig: Signature): (r: Option<Complaint>)
    ensures r == Some(NoType) <==> !sig.hasType
    ensures r == Some(NoRules) <==> sig.hasType && !sig.hasRules
    ensures r == Some(NoExt) <==>
      sig.hasType && sig.hasRules && sig.fields.ext.None? && !CheckRules(sig.rules).hasExt
    ensures r == Some(NoMime) <==>
      sig.hasType && sig.hasRules && (sig.fields.ext.Some? || CheckRules(sig.rules).hasExt) &&
      sig.fields.mime.None? && !CheckRules(sig.rules).hasMime
  {
    if !sig.hasType then Some(NoType)
    else if !sig.hasRules then Some(NoRules)
    else
      var keys := CheckRules(sig.rules);
      if sig.fields.ext.None? && !keys.hasExt then Some(NoExt)
      else if sig.fields.mime.None? && !keys.hasMime then Some(NoMime)
      else None
  }

  /** `_validateSigantures`: the errors of the invalid signatures, in order
      (an empty list stands for `true`). */
  function ValidationErrors(sigs: seq<Signature>): (r: seq<SignatureError>)
    ensures |r| <= |sigs|
    ensures r == [] <==> forall i | 0 <= i < |sigs| :: ValidateSignature(sigs[i]).None?
    ensures forall e | e in r :: e.signature in sigs && ValidateSignature(e.signature) == Some(e.complaint)
    decreases sigs
  {
    if sigs == [] then []
    else
      var rest := ValidationErrors(sigs[1..]);
      assert forall i | 1 <= i < |sigs| :: sigs[i] == sigs[1..][i - 1];
      match ValidateSignature(sigs[0])
      case None => rest
      case Some(c) => [SignatureError(c, sigs[0])] + rest
  }

  /** An unsupported rule type does not stop a signature from validating. */
  lemma {:induction false} UnsupportedRuleAccepted()
    ensures var rule := Rule(Some("magic"), None, false, [], [], None, None, None, false, NoFields);
      var sig := Signature(true, true, [rule], Fields(Some("bin"), Some("application/octet-stream"), None), false);
      CheckRule(rule) == Problem(UnsupportedType) && ValidateSignature(sig) == None
  {
    var rule := Rule(Some("magic"), None, false, [], [], None, None, None, false, NoFields);
    assert KindOf(rule.ruleType) == Unsupported;
  }

  // ---------------------------------------------------------------------------
  // fromBuffer
  // ---------------------------------------------------------------------------

  /** The detection of one signature: its rules as an and-list, retried on the
      recoded text when that fails and `recode_text` is set. Without `rules`,
      `_detect` throws. */
  function SignatureDetection(buf: seq<byte>, sig: Signature, recode: Recoder): Outcome {
    if !sig.hasRules then Thrown
    else
      var first := Detect(buf, sig.rules, AndList, Detected, None, recode);
      if first.Thrown? then Thrown
      else if !Truthy(first.detection) && sig.recodeText && recode(buf).Some?
      then Detect(recode(buf).value, sig.rules, AndList, Detected, None, recode)
      else first
  }

  /** `_getRuleDetection({}, signature, detection)`. */
  function SignatureResult(sig: Signature, d: Detection): Detection {
    RuleDetection([Object(NoFields), Object(sig.fields), AsArg(d)])
  }

  /** The result of a detecting signature is its keys, overridden by those of
      the detection. */
  lemma {:induction false} SignatureResultMeaning(sig: Signature, d: Detection)
    requires Truthy(d)
    ensures SignatureResult(sig, d) == Found(Merge(sig.fields, FieldsOf(d)))
  {
    var args := [Object(NoFields), Object(sig.fields), AsArg(d)];
    assert args[..2][..1] == [Object(NoFields)];
    assert [Object(NoFields)][..0] == [];
    assert RuleDetection([Object(NoFields)]) == Found(NoFields);
    assert Merge(NoFields, sig.fields) == sig.fields;
    assert RuleDetection(args[..2]) == Found(sig.fields);
    assert Merge(sig.fields, NoFields) == sig.fields;
  }

  /** How the loop over signatures ends. */
  datatype Identified = Aborted | Matched(fields: Fields) | Unmatched

  function FirstSignature(buf: seq<byte>, sigs: seq<Signature>, recode: Recoder): Identified
    decreases sigs
  {
    if sigs == [] then Unmatched
    else
      match SignatureDetection(buf, sigs[0], recode)
      case Thrown => Aborted
      case Evaluated(d, _) =>
        if Truthy(d) then Matched(FieldsOf(SignatureResult(sigs[0], d)))
        else FirstSignature(buf, sigs[1..], recode)
  }

  predicate Misses(buf: seq<byte>, sig: Signature, recode: Recoder) {
    var o := SignatureDetection(buf, sig, recode);
    o.Evaluated? && !Truthy(o.detection)
  }

  /** The first signature that detects decides the result, provided every
      signature before it was evaluated without detecting. */
  lemma {:induction false} FirstSignatureWins(buf: seq<byte>, sigs: seq<Signature>, i: nat, recode: Recoder)
    requires i < |sigs|
    requires forall j | 0 <= j < i :: Misses(buf, sigs[j], recode)
    requires var o := SignatureDetection(buf, sigs[i], recode); o.Evaluated? && Truthy(o.detection)
    ensures FirstSignature(buf, sigs, recode) ==
      Matched(Merge(sigs[i].fields, FieldsOf(SignatureDetection(buf, sigs[i], recode).detection)))
    decreases i
  {
    if i == 0 {
      SignatureResultMeaning(sigs[0], SignatureDetection(buf, sigs[0], recode).detection);
    } else {
      assert Misses(buf, sigs[0], recode);
      assert forall j | 0 <= j < i - 1 :: sigs[1..][j] == sigs[j + 1];
      FirstSignatureWins(buf, sigs[1..], i - 1, recode);
    }
  }

  /** No signature matches exactly when every one is evaluated without detecting. */
  lemma {:induction false} UnmatchedMeaning(buf: seq<byte>, sigs: seq<Signature>, recode: Recoder)
    ensures FirstSignature(buf, sigs, recode) == Unmatched <==>
      forall j | 0 <= j < |sigs| :: Misses(buf, sigs[j], recode)
    decreases sigs
  {
    if sigs != [] {
      UnmatchedMeaning(buf, sigs[1..], recode);
      assert forall j | 1 <= j < |sigs| :: sigs[j] == sigs[1..][j - 1];
      if !Misses(buf, sigs[0], recode) {
        assert FirstSignature(buf, sigs, recode) != Unmatched;
      }
    }
  }

  /** A custom function: a buffer to a detection, or `None` for a falsy result. */
  type Custom = seq<byte> -> Option<Fields>

  /** The first truthy result of the custom functions, in order. */
  function FirstCustom(buf: seq<byte>, customs: seq<Custom>): (r: Option<Fields>)
    ensures r.None? <==> forall i | 0 <= i < |customs| :: customs[i](buf).None?
    ensures r.Some? ==> exists i | 0 <= i < |customs| ::
      customs[i](buf) == r && forall j | 0 <= j < i :: customs[j](buf).None?
    decreases customs
  {
    if customs == [] then None
    else if customs[0](buf).Some? then customs[0](buf)
    else
      var r := FirstCustom(buf, customs[1..]);
      assert forall i | 1 <= i < |customs| :: customs[i] == customs[1..][i - 1];
      assert r.Some? ==> exists i | 1 <= i < |customs| ::
        customs[i](buf) == r && forall j | 0 <= j < i :: customs[j](buf).None?;
      r
  }

  /** How the promise of `fromBuffer` settles: rejected with the validation
      errors, rejected by an exception, or resolved with a detection or `null`. */
  datatype Response = Rejected(errors: seq<SignatureError>) | Failed | Resolved(result: Option<Fields>)

  function Respond(sigs: seq<Signature>, customs: seq<Custom>, buf: seq<byte>, recode: Recoder): Response {
    var errors := ValidationErrors(sigs);
    if errors != [] then Rejected(errors)
    else
      match FirstSignature(buf, sigs, recode)
      case Aborted => Failed
      case Matched(f) => Resolved(Some(f))
      case Unmatched => Resolved(FirstCustom(buf, customs))
  }

  /** The body of the `signatures.every` callback up to its test: the rules are
      evaluated on the buffer and, when they do not detect and the signature asks
      for it, again on the recoded text. A missing `rules` list or a throwing rule
      rejects the promise. */
  method TrySignature(buf: seq<byte>, sig: Signature, recode: Recoder) returns (thrown: bool, detection: Detection)
    ensures thrown <==> SignatureDetection(buf, sig, recode).Thrown?
    ensures !thrown ==> detection == SignatureDetection(buf, sig, recode).detection
  {
    if !sig.hasRules {
      return true, Undetected;
    }
    thrown, detection := DetectRules(buf, sig.rules, AndList, null, recode);
    if !thrown && !Truthy(detection) && sig.recodeText && recode(buf).Some? {
      thrown, detection := DetectRules(recode(buf).value, sig.rules, AndList, null, recode);
    }
  }

  /** The `signatures.every` loop: the first signature that detects gives the
      result, a throwing one rejects the promise, and none gives no result. */
  method TrySignatures(buf: seq<byte>, sigs: seq<Signature>, recode: Recoder) returns (found: Identified)
    ensures found == FirstSignature(buf, sigs, recode)
  {
    var i := 0;
    while i < |sigs|
      invariant 0 <= i <= |sigs|
      invariant FirstSignature(buf, sigs, recode) == FirstSignature(buf, sigs[i..], recode)
    {
      var sig := sigs[i];
      assert sigs[i..][0] == sig && sigs[i..][1..] == sigs[i + 1..];
      var thrown, detection := TrySignature(buf, sig, recode);
      if thrown {
        return Aborted;
      }
      if Truthy(detection) {
        var v := GetRuleDetection([Object(NoFields), Object(sig.fields), AsArg(detection)]);
        return Matched(FieldsOf(v));
      }
      i := i + 1;
    }
    assert sigs[i..] == [];
    return Unmatched;
  }

  /** The `customFunctions.every` loop: the first truthy answer, in order. */
  method TryCustomFunctions(buf: seq<byte>, customs: seq<Custom>) returns (result: Option<Fields>)
    ensures result == FirstCustom(buf, customs)
  {
    result := None;
    var j := 0;
    while j < |customs| && result.None?
      invariant 0 <= j <= |customs|
      invariant FirstCustom(buf, customs) == if result.None? then FirstCustom(buf, customs[j..]) else result
      decreases |customs| - j
    {
      CustomStep(buf, customs, j);
      var fnResult := customs[j](buf);
      if fnResult.Some? {
        result := fnResult;
      }
      j := j + 1;
    }
    if result.None? {
      assert customs[j..] == [];
    }
  }

  /** One custom function: its truthy answer, or the answer of those after it. */
  lemma CustomStep(buf: seq<byte>, customs: seq<Custom>, j: nat)
    requires j < |customs|
    ensures FirstCustom(buf, customs[j..]) ==
      if customs[j](buf).Some? then customs[j](buf) else FirstCustom(buf, customs[j + 1..])
  {
    assert customs[j..][0] == customs[j];
    assert customs[j..][1..] == customs[j + 1..];
  }

  /** Whether `validatedSignaturesCache` holds a verdict yet. */
  datatype Cache = Unchecked | Checked(errors: seq<SignatureError>)

  /** The module state of DetectFileType.js: the signature list, the custom
      functions and the validation cache. */
  class Detector {
    var signatures: seq<Signature>
    var customFunctions: seq<Custom>
    var cache: Cache

    /** A cached verdict is the verdict on the current signatures. */
    ghost predicate Valid()
      reads this
    {
      cache.Checked? ==> cache.errors == ValidationErrors(signatures)
    }

    constructor(signatures: seq<Signature>)
      ensures Valid()
      ensures this.signatures == signatures && customFunctions == [] && cache == Unchecked
    {
      this.signatures := signatures;
      customFunctions := [];
      cache := Unchecked;
    }

    /** `addSignature`: appends and drops the cached verdict. */
    method AddSignature(sig: Signature)
      requires Valid()
      modifies this
      ensures Valid()
      ensures signatures == old(signatures) + [sig] && customFunctions == old(customFunctions)
      ensures cache == Unchecked
    {
      cache := Unchecked;
      signatures := signatures + [sig];
    }

    /** `addCustomFunction`. */
    method AddCustomFunction(fn: Custom)
      requires Valid()
      modifies this
      ensures Valid()
      ensures customFunctions == old(customFunctions) + [fn]
      ensures signatures == old(signatures) && cache == old(cache)
    {
      customFunctions := customFunctions + [fn];
    }

    /** `fromBuffer`: validates once, then tries each signature in order and,
        when none detects, each custom function. */
    method FromBuffer(buf: seq<byte>, recode: Recoder) returns (r: Response)
      requires Valid()
      modifies this
      ensures Valid()
      ensures signatures == old(signatures) && customFunctions == old(customFunctions)
      ensures cache == Checked(ValidationErrors(signatures))
      ensures r == Respond(signatures, customFunctions, buf, recode)
    {
      if cache.Unchecked? {
        cache := Checked(ValidationErrors(signatures));
      }
      if cache.errors != [] {
        return Rejected(cache.errors);
      }
      var found := TrySignatures(buf, signatures, recode);
      match found
      case Aborted => return Failed;
      case Matched(f) => return Resolved(Some(f));
      case Unmatched =>
        var result := TryCustomFunctions(buf, customFunctions);
        return Resolved(result);
    }
  }
}
