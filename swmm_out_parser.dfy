/**
 * `SwmmOutParser`: reads the binary results file of a SWMM 5 run (`.out`)
 * into a time series of per-object results, and scans the text report
 * (`.rpt`) for its summary tables.
 *
 * The binary reader is a cursor (`offset`) over a byte view. Integers are
 * 32-bit little-endian two's complement and are decoded here; the decoding
 * of 32- and 64-bit floats is given to the parser when it is made.
 */
module SwmmOut {
  import opened Wrappers
  import opened Bytes
  import opened JsNum
  import opened JsText

  /** The magic number at the start and at the end of the file. */
  const Magic := 516114522
  const MaxSteps := 50000
  const NumSysVars := 15
  const BadMagic := "Invalid SWMM Output File: Bad Magic Number"
  const RangeError := "RangeError"

  // -------------------------------------------------------------- reading

  /** The unsigned value of four little-endian bytes. */
  function UInt32LE(b0: byte, b1: byte, b2: byte, b3: byte): int {
    b0 as int + 0x100 * (b1 as int) + 0x1_0000 * (b2 as int) + 0x100_0000 * (b3 as int)
  }

  /** Two's complement: an unsigned 32-bit value as a signed one. */
  function ToInt32(u: int): int {
    if u >= 0x8000_0000 then u - 0x1_0000_0000 else u
  }

  predicate InView(bs: seq<byte>, p: int, width: nat) {
    0 <= p && p + width <= |bs|
  }

  /** `getInt32(p, true)`: none when the four bytes are not all inside the view (a RangeError). */
  function Int32At(bs: seq<byte>, p: int): (r: Option<int>)
    ensures r.Some? <==> InView(bs, p, 4)
    ensures r.Some? ==> -0x8000_0000 <= r.value < 0x8000_0000
  {
    if InView(bs, p, 4) then Some(ToInt32(UInt32LE(bs[p], bs[p + 1], bs[p + 2], bs[p + 3]))) else None
  }

  /** The four little-endian bytes of a signed 32-bit value. */
  function EncodeInt32(v: int): (bs: seq<byte>)
    requires -0x8000_0000 <= v < 0x8000_0000
    ensures |bs| == 4
  {
    var u := if v < 0 then v + 0x1_0000_0000 else v;
    var q1 := u / 0x100;
    var q2 := q1 / 0x100;
    [(u % 0x100) as byte, (q1 % 0x100) as byte, (q2 % 0x100) as byte, (q2 / 0x100) as byte]
  }

  /** Decoding reads back what encoding wrote, wherever in the view it stands. */
  lemma Int32RoundTrip(prefix: seq<byte>, v: int, suffix: seq<byte>)
    requires -0x8000_0000 <= v < 0x8000_0000
    ensures Int32At(prefix + EncodeInt32(v) + suffix, |prefix|) == Some(v)
  {
    var bs := prefix + EncodeInt32(v) + suffix;
    var e := EncodeInt32(v);
    var p := |prefix|;
    assert bs[p] == e[0] && bs[p + 1] == e[1] && bs[p + 2] == e[2] && bs[p + 3] == e[3];
    DecodeEncoded(v);
  }

  lemma DecodeEncoded(v: int)
    requires -0x8000_0000 <= v < 0x8000_0000
    ensures var e := EncodeInt32(v); ToInt32(UInt32LE(e[0], e[1], e[2], e[3])) == v
  {
    var e := EncodeInt32(v);
    var u := if v < 0 then v + 0x1_0000_0000 else v;
    var q1 := u / 0x100;
    var q2 := q1 / 0x100;
    assert u == 0x100 * q1 + e[0] as int;
    assert q1 == 0x100 * q2 + e[1] as int;
    assert q2 == 0x100 * e[3] as int + e[2] as int;
    assert UInt32LE(e[0], e[1], e[2], e[3]) == u;
  }

  /** `getFloat32(p, true)`, with the float decoding given as `f32`. */
  function Float32At(bs: seq<byte>, p: int, f32: seq<byte> -> real): (r: Option<real>)
    ensures r.Some? <==> InView(bs, p, 4)
  {
    if InView(bs, p, 4) then Some(f32(bs[p..p + 4])) else None
  }

  /** `getFloat64(p, true)`, with the float decoding given as `f64`. */
  function Float64At(bs: seq<byte>, p: int, f64: seq<byte> -> real): (r: Option<real>)
    ensures r.Some? <==> InView(bs, p, 8)
  {
    if InView(bs, p, 8) then Some(f64(bs[p..p + 8])) else None
  }

  /** A value read at some position, with the position after it. */
  datatype Read<T> = Read(value: T, next: int)

  /** The value of a read, without its end position. */
  function ValueOf<T>(r: Result<Read<T>>): Result<T> {
    if r.Ok? then Ok(r.value.value) else Err(r.message)
  }

  function OrRangeError<T>(o: Option<T>): Result<T> {
    if o.Some? then Ok(o.value) else Err(RangeError)
  }

  // --------------------------------------------------------------- header

  /** The seven integers of the opening record. */
  datatype Counts = Counts(version: int, flowUnits: int, numSubcatch: int, numNodes: int, numLinks: int, numPolluts: int)

  /** Lines 40-51: the magic number, then six counts; a short file throws a RangeError. */
  function HeaderAt(bs: seq<byte>): (r: Result<Counts>)
    ensures r.Ok? <==> |bs| >= 28 && Int32At(bs, 0) == Some(Magic)
    ensures |bs| >= 4 && Int32At(bs, 0) != Some(Magic) ==> r == Err(BadMagic)
  {
    if |bs| < 4 then Err(RangeError)
    else if Int32At(bs, 0) != Some(Magic) then Err(BadMagic)
    else if |bs| < 28 then Err(RangeError)
    else Ok(Counts(Int32At(bs, 4).value, Int32At(bs, 8).value, Int32At(bs, 12).value,
                   Int32At(bs, 16).value, Int32At(bs, 20).value, Int32At(bs, 24).value))
  }

  /** A file that does not start with the magic number is refused, whatever follows. */
  lemma BadMagicRefused(v: int, rest: seq<byte>)
    requires -0x8000_0000 <= v < 0x8000_0000 && v != Magic
    ensures HeaderAt(EncodeInt32(v) + rest) == Err(BadMagic)
  {
    Int32RoundTrip([], v, rest);
    assert [] + EncodeInt32(v) + rest == EncodeInt32(v) + rest;
  }

  // ------------------------------------------------------------------ ids

  /** Lines 65-70: a length, then that many bytes of text; a negative length or one past the view's end throws. */
  function IdAt(bs: seq<byte>, p: int): (r: Result<Read<string>>)
    ensures r.Ok? ==> r.value.next == p + 4 + |r.value.value| && r.value.next <= |bs|
  {
    var len := Int32At(bs, p);
    if len.None? then Err(RangeError)
    else if len.value < 0 || p + 4 + len.value > |bs| then Err(RangeError)
    else Ok(Read(Decode(bs[p + 4..p + 4 + len.value]), p + 4 + len.value))
  }

  /** `n` ids read one after the other from `p`; none for a count below 1. */
  function IdsAt(bs: seq<byte>, p: int, n: int): (r: Result<Read<seq<string>>>)
    ensures r.Ok? ==> |r.value.value| == Max(n, 0)
    decreases n
  {
    if n <= 0 then Ok(Read([], p))
    else
      var first := IdAt(bs, p);
      if first.Err? then Err(first.message)
      else
        var rest := IdsAt(bs, first.value.next, n - 1);
        if rest.Err? then rest else Ok(Read([first.value.value] + rest.value.value, rest.value.next))
  }

  /** `acc` put in front of the ids of an outcome. */
  function PrependIds(acc: seq<string>, r: Result<Read<seq<string>>>): Result<Read<seq<string>>> {
    if r.Err? then r else Ok(Read(acc + r.value.value, r.value.next))
  }

  /** Reading one more id moves it from the outcome into the prefix. */
  lemma PrependIdsStep(bs: seq<byte>, o: int, m: int, acc: seq<string>)
    requires m > 0 && IdAt(bs, o).Ok?
    ensures PrependIds(acc, IdsAt(bs, o, m)) == PrependIds(acc + [IdAt(bs, o).value.value], IdsAt(bs, IdAt(bs, o).value.next, m - 1))
  {
    var rest := IdsAt(bs, IdAt(bs, o).value.next, m - 1);
    if rest.Ok? {
      assert acc + ([IdAt(bs, o).value.value] + rest.value.value) == acc + [IdAt(bs, o).value.value] + rest.value.value;
    }
  }

  datatype Names = Names(subcatch: seq<string>, nodes: seq<string>, links: seq<string>, polluts: seq<string>)

  /** The ids of the subcatchments, the nodes, the links and the pollutants, in that order. */
  function NamesAt(bs: seq<byte>, p: int, c: Counts): (r: Result<Read<Names>>)
    ensures r.Ok? ==> (|r.value.value.subcatch| == Max(c.numSubcatch, 0) && |r.value.value.nodes| == Max(c.numNodes, 0)
      && |r.value.value.links| == Max(c.numLinks, 0))
  {
    var subs := IdsAt(bs, p, c.numSubcatch);
    if subs.Err? then Err(subs.message) else
    var nodes := IdsAt(bs, subs.value.next, c.numNodes);
    if nodes.Err? then Err(nodes.message) else
    var links := IdsAt(bs, nodes.value.next, c.numLinks);
    if links.Err? then Err(links.message) else
    var polluts := IdsAt(bs, links.value.next, c.numPolluts);
    if polluts.Err? then Err(polluts.message) else
    Ok(Read(Names(subs.value.value, nodes.value.value, links.value.value, polluts.value.value), polluts.value.next))
  }

  // ------------------------------------------------------ signature scan

  /** The `k`-th integer after position `p`. */
  function SlotAt(bs: seq<byte>, p: int, k: int): Option<int> {
    Int32At(bs, p + 4 + 4 * k)
  }

  /** Position `p` holds 15 followed by the codes 0 to 14: the block of system variable codes. */
  predicate SignatureAt(bs: seq<byte>, p: int) {
    Int32At(bs, p) == Some(NumSysVars) && forall k :: 0 <= k < NumSysVars ==> SlotAt(bs, p, k) == Some(k)
  }

  /** Where the scan stops: 100 bytes before the end of the view, and at most at 5000. */
  function ScanLimit(bs: seq<byte>): int {
    Min(|bs| - 100, 5000)
  }

  /** The first position from `p` on, below the scan limit, that holds the signature. */
  function SignatureFrom(bs: seq<byte>, p: int): (r: Option<int>)
    ensures r.Some? ==> (p <= r.value < ScanLimit(bs) && SignatureAt(bs, r.value)
      && forall q :: p <= q < r.value ==> !SignatureAt(bs, q))
    ensures r.None? ==> forall q :: p <= q < ScanLimit(bs) ==> !SignatureAt(bs, q)
    decreases ScanLimit(bs) - p
  {
    if p >= ScanLimit(bs) then None
    else if SignatureAt(bs, p) then Some(p)
    else SignatureFrom(bs, p + 1)
  }

  /** Lines 112-134: the scan starts after the 28-byte opening record. */
  function FirstSignature(bs: seq<byte>): Option<int> {
    SignatureFrom(bs, 28)
  }

  // ----------------------------------------------------- variable counts

  /** The number of variables of each kind: from the codes block, or 1 each without one. */
  datatype VarCounts = VarCounts(sub: int, node: int, link: int)

  /** Lines 184-188: counts that are negative, or more than 50 subcatchment variables, are taken as a false match and reset to 1. */
  function Sanitized(v: VarCounts): VarCounts {
    if v.sub < 0 || v.node < 0 || v.link < 0 || v.sub > 50 then VarCounts(1, 1, 1) else v
  }

  /** Sanitised counts are never negative, and an accepted count of subcatchment variables is at most 50. */
  lemma SanitizedFacts(v: VarCounts)
    ensures var s := Sanitized(v); s.sub >= 0 && s.node >= 0 && s.link >= 0 && s.sub <= 50
    ensures 0 <= v.sub <= 50 && v.node >= 0 && v.link >= 0 ==> Sanitized(v) == v
    ensures !(0 <= v.sub <= 50 && v.node >= 0 && v.link >= 0) ==> Sanitized(v) == VarCounts(1, 1, 1)
  {
  }

  /**
   * Lines 160-178: walking back from the codes block: the integer before
   * each block is the last code of the block before it, one less than its
   * count; a read outside the view throws.
   */
  function InferredCounts(bs: seq<byte>, sysVarsPos: int): Result<VarCounts> {
    var lastLinkCode := Int32At(bs, sysVarsPos - 4);
    if lastLinkCode.None? then Err(RangeError) else
    var numLinkVars := lastLinkCode.value + 1;
    var linkBlockStart := sysVarsPos - numLinkVars * 4 - 4;
    var lastNodeCode := Int32At(bs, linkBlockStart - 4);
    if lastNodeCode.None? then Err(RangeError) else
    var numNodeVars := lastNodeCode.value + 1;
    var nodeBlockStart := linkBlockStart - 4 - numNodeVars * 4;
    var lastSubCode := Int32At(bs, nodeBlockStart - 4);
    if lastSubCode.None? then Err(RangeError) else
    Ok(Sanitized(VarCounts(lastSubCode.value + 1, numNodeVars, numLinkVars)))
  }

  // --------------------------------------------------------------- trailer

  /**
   * Lines 208-227: with a valid trailer (the magic number in the last four
   * bytes) its output position is used when it lies inside the file and not
   * before `current`; otherwise the reading position stays.
   */
  function ResultsStart(bs: seq<byte>, current: int): (r: int)
    ensures r == current || (current <= r && 0 < r < |bs|)
  {
    var fileLen := |bs|;
    var trailerOffset := fileLen - 24;
    if trailerOffset > 0 && Int32At(bs, fileLen - 4) == Some(Magic) then
      var outPos := Int32At(bs, trailerOffset + 8).value;
      if outPos > 0 && outPos < fileLen && outPos >= current then outPos else current
    else current
  }

  // ----------------------------------------------------------------- steps

  /** The kind of object a result record is read for. */
  datatype Kind = SubKind | NodeKind | LinkKind

  /** One object's results in one step: runoff; depth, volume, inflow in L/s, flooding; flow in L/s, velocity, volume, capacity ratio. */
  datatype Reading =
    | SubReading(runoff: real)
    | NodeReading(depth: real, vol: real, inflow: real, flooding: real)
    | LinkReading(q: real, signedQ: real, v: real, linkVol: real, utilization: real)

  /**
   * Lines 272, 281-284 and 299-302: the variables read from the record at
   * `q`; the source reads them at fixed slots whatever the record's size, so
   * a slot past the view's end throws.
   */
  function ReadingAt(bs: seq<byte>, q: int, kind: Kind, f32: seq<byte> -> real): Option<Reading> {
    match kind
    case SubKind =>
      var runoff := Float32At(bs, q + 3 * 4, f32);
      if runoff.None? then None else Some(SubReading(runoff.value))
    case NodeKind =>
      var depth := Float32At(bs, q, f32);
      var vol := Float32At(bs, q + 2 * 4, f32);
      var inflow := Float32At(bs, q + 4 * 4, f32);
      var flood := Float32At(bs, q + 5 * 4, f32);
      if depth.None? || vol.None? || inflow.None? || flood.None? then None
      else Some(NodeReading(depth.value, vol.value, inflow.value * 1000.0, flood.value))
    case LinkKind =>
      var flow := Float32At(bs, q, f32);
      var vel := Float32At(bs, q + 2 * 4, f32);
      var vol := Float32At(bs, q + 3 * 4, f32);
      var cap := Float32At(bs, q + 4 * 4, f32);
      if flow.None? || vel.None? || vol.None? || cap.None? then None
      else Some(LinkReading(AbsReal(flow.value) * 1000.0, flow.value * 1000.0, vel.value, vol.value, cap.value))
  }

  /** The records of objects `i` to `n - 1`, `stride` bytes apart from `q`, added in order to `acc`; a later id overrides an earlier one. */
  function ReadingsFrom(bs: seq<byte>, q: int, ids: seq<string>, i: nat, n: int, stride: int, kind: Kind,
                        f32: seq<byte> -> real, acc: map<string, Reading>): Result<Read<map<string, Reading>>>
    requires n <= |ids|
    decreases n - i
  {
    if i >= n then Ok(Read(acc, q))
    else
      var r := ReadingAt(bs, q, kind, f32);
      if r.None? then Err(RangeError)
      else ReadingsFrom(bs, q + stride, ids, i + 1, n, stride, kind, f32, acc[ids[i] := r.value])
  }

  /** One time step: its time before post-processing, its date, and the results of every node, link and subcatchment. */
  datatype Step = Step(time: real, date: real, nodes: map<string, Reading>, edges: map<string, Reading>, subcatchments: map<string, Reading>)

  /** The layout of a step record. */
  datatype Layout = Layout(numSubcatch: int, numNodes: int, numLinks: int, vars: VarCounts)

  /** Lines 199-204: the date, then one float per variable and object, then the system variables. */
  function BytesPerStep(l: Layout): int {
    8 + l.numSubcatch * l.vars.sub * 4 + l.numNodes * l.vars.node * 4 + l.numLinks * l.vars.link * 4 + NumSysVars * 4
  }

  predicate NamesFit(l: Layout, names: Names) {
    l.numSubcatch <= |names.subcatch| && l.numNodes <= |names.nodes| && l.numLinks <= |names.links|
  }

  /** Lines 254-318: one step read at `o`. */
  function StepAt(bs: seq<byte>, o: int, l: Layout, names: Names, stepCount: nat,
                  f32: seq<byte> -> real, f64: seq<byte> -> real): Result<Read<Step>>
    requires NamesFit(l, names)
  {
    var date := Float64At(bs, o, f64);
    if date.None? then Err(RangeError) else
    var subs := ReadingsFrom(bs, o + 8, names.subcatch, 0, l.numSubcatch, l.vars.sub * 4, SubKind, f32, map[]);
    if subs.Err? then Err(subs.message) else
    var nodes := ReadingsFrom(bs, subs.value.next, names.nodes, 0, l.numNodes, l.vars.node * 4, NodeKind, f32, map[]);
    if nodes.Err? then Err(nodes.message) else
    var links := ReadingsFrom(bs, nodes.value.next, names.links, 0, l.numLinks, l.vars.link * 4, LinkKind, f32, map[]);
    if links.Err? then Err(links.message) else
    Ok(Read(Step(stepCount as real * 60.0, date.value, nodes.value.value, links.value.value, subs.value.value),
            links.value.next + NumSysVars * 4))
  }

  /** The condition of the step loop at line 248. */
  predicate MoreSteps(bs: seq<byte>, o: int, stepCount: nat) {
    o < |bs| - 16 && stepCount < MaxSteps
  }

  /** Lines 248-319: steps are read while 16 bytes remain, fewer than 50000 were read and a whole step record remains. */
  function StepsFrom(bs: seq<byte>, o: int, stepCount: nat, l: Layout, names: Names,
                     f32: seq<byte> -> real, f64: seq<byte> -> real): Result<seq<Step>>
    requires NamesFit(l, names)
    decreases MaxSteps - stepCount
  {
    if !MoreSteps(bs, o, stepCount) || |bs| - o < BytesPerStep(l) then Ok([])
    else
      var step := StepAt(bs, o, l, names, stepCount, f32, f64);
      if step.Err? then Err(step.message)
      else
        var rest := StepsFrom(bs, step.value.next, stepCount + 1, l, names, f32, f64);
        if rest.Err? then rest else Ok([step.value.value] + rest.value)
  }

  function PrependSteps(acc: seq<Step>, r: Result<seq<Step>>): Result<seq<Step>> {
    if r.Err? then r else Ok(acc + r.value)
  }

  lemma PrependNothing(r: Result<seq<Step>>)
    ensures PrependSteps([], r) == r
  {
    if r.Ok? {
      assert [] + r.value == r.value;
    }
  }

  /** Reading one more step moves it from the outcome into the prefix. */
  lemma PrependStepsStep(bs: seq<byte>, o: int, stepCount: nat, l: Layout, names: Names,
                         f32: seq<byte> -> real, f64: seq<byte> -> real, acc: seq<Step>)
    requires NamesFit(l, names) && MoreSteps(bs, o, stepCount) && |bs| - o >= BytesPerStep(l)
    requires StepAt(bs, o, l, names, stepCount, f32, f64).Ok?
    ensures PrependSteps(acc, StepsFrom(bs, o, stepCount, l, names, f32, f64)) ==
      PrependSteps(acc + [StepAt(bs, o, l, names, stepCount, f32, f64).value.value],
                   StepsFrom(bs, StepAt(bs, o, l, names, stepCount, f32, f64).value.next, stepCount + 1, l, names, f32, f64))
  {
    var step := StepAt(bs, o, l, names, stepCount, f32, f64).value;
    var rest := StepsFrom(bs, step.next, stepCount + 1, l, names, f32, f64);
    if rest.Ok? {
      assert acc + ([step.value] + rest.value) == acc + [step.value] + rest.value;
    }
  }

  lemma StepsStop(bs: seq<byte>, o: int, stepCount: nat, l: Layout, names: Names,
                  f32: seq<byte> -> real, f64: seq<byte> -> real)
    requires NamesFit(l, names) && (!MoreSteps(bs, o, stepCount) || |bs| - o < BytesPerStep(l))
    ensures StepsFrom(bs, o, stepCount, l, names, f32, f64) == Ok([])
  {
  }

  lemma StepsFail(bs: seq<byte>, o: int, stepCount: nat, l: Layout, names: Names,
                  f32: seq<byte> -> real, f64: seq<byte> -> real)
    requires NamesFit(l, names) && MoreSteps(bs, o, stepCount) && |bs| - o >= BytesPerStep(l)
    requires StepAt(bs, o, l, names, stepCount, f32, f64).Err?
    ensures StepsFrom(bs, o, stepCount, l, names, f32, f64) == Err(StepAt(bs, o, l, names, stepCount, f32, f64).message)
  {
  }

  /** At most 50000 steps are read, counting those already read. */
  lemma {:induction false} StepsBounded(bs: seq<byte>, o: int, stepCount: nat, l: Layout, names: Names,
                                        f32: seq<byte> -> real, f64: seq<byte> -> real)
    requires NamesFit(l, names) && stepCount <= MaxSteps
    ensures var r := StepsFrom(bs, o, stepCount, l, names, f32, f64);
      r.Ok? ==> stepCount + |r.value| <= MaxSteps
    decreases MaxSteps - stepCount
  {
    if MoreSteps(bs, o, stepCount) && |bs| - o >= BytesPerStep(l) {
      var step := StepAt(bs, o, l, names, stepCount, f32, f64);
      if step.Ok? {
        StepsBounded(bs, step.value.next, stepCount + 1, l, names, f32, f64);
      }
    }
  }

  /** Lines 321-328: every step's time becomes the seconds since the first step's date (a day is 86400 seconds). */
  function WithTimes(steps: seq<Step>): (r: seq<Step>)
    ensures |r| == |steps|
  {
    if steps == [] then []
    else seq(|steps|, k requires 0 <= k < |steps| => steps[k].(time := (steps[k].date - steps[0].date) * 86400.0))
  }

  /**
   * The first step is at time 0, a later date gives a later time, and only
   * the times change.
   */
  lemma WithTimesFacts(steps: seq<Step>)
    ensures var r := WithTimes(steps);
      && (|r| > 0 ==> r[0].time == 0.0)
      && (forall j, k :: 0 <= j < |r| && 0 <= k < |r| && steps[j].date < steps[k].date ==> r[j].time < r[k].time)
      && (forall k :: 0 <= k < |r| ==> r[k].(time := steps[k].time) == steps[k])
  {
  }

  /** There is an id for every object the counts announce. */
  predicate NamesCover(c: Counts, names: Names) {
    c.numSubcatch <= |names.subcatch| && c.numNodes <= |names.nodes| && c.numLinks <= |names.links|
  }

  /** Lines 102-330: after the ids, skip the properties, align, find the results and read the steps. */
  function ResultsAfterNames(bs: seq<byte>, c: Counts, names: Names, afterIds: int,
                             f32: seq<byte> -> real, f64: seq<byte> -> real): (r: Result<seq<Step>>)
    requires NamesCover(c, names)
    ensures r.Ok? ==> |r.value| <= MaxSteps && (|r.value| > 0 ==> r.value[0].time == 0.0)
  {
    var afterProps := afterIds + c.numSubcatch * 4 + c.numNodes * 3 * 4;
    var sysVarsPos := FirstSignature(bs);
    var vars := if sysVarsPos.None? then Ok(VarCounts(1, 1, 1)) else InferredCounts(bs, sysVarsPos.value);
    if vars.Err? then Err(vars.message) else
    var current := if sysVarsPos.None? then afterProps else sysVarsPos.value + 4 + NumSysVars * 4;
    var l := Layout(c.numSubcatch, c.numNodes, c.numLinks, vars.value);
    var steps := StepsFrom(bs, ResultsStart(bs, current), 0, l, names, f32, f64);
    StepsBounded(bs, ResultsStart(bs, current), 0, l, names, f32, f64);
    TimedFacts(steps);
    Timed(steps)
  }

  /** The steps read, with their times post-processed; an error stays. */
  function Timed(steps: Result<seq<Step>>): Result<seq<Step>> {
    if steps.Err? then steps else Ok(WithTimes(steps.value))
  }

  lemma TimedFacts(steps: Result<seq<Step>>)
    requires steps.Ok? ==> |steps.value| <= MaxSteps
    ensures var r := Timed(steps);
      r.Ok? ==> |r.value| <= MaxSteps && (|r.value| > 0 ==> r.value[0].time == 0.0)
  {
    if steps.Ok? {
      WithTimesFacts(steps.value);
    }
  }

  /** The whole of `parse`, as a function of the bytes and the float decodings. */
  function Parsed(bs: seq<byte>, f32: seq<byte> -> real, f64: seq<byte> -> real): Result<seq<Step>> {
    var header := HeaderAt(bs);
    if header.Err? then Err(header.message) else
    var names := NamesAt(bs, 28, header.value);
    if names.Err? then Err(names.message) else
    ResultsAfterNames(bs, header.value, names.value.value, names.value.next, f32, f64)
  }

  /**
   * What `parse` promises: a wrong magic number is refused, at most 50000
   * steps come back, and the first is at time 0.
   */
  lemma ParsedFacts(bs: seq<byte>, f32: seq<byte> -> real, f64: seq<byte> -> real)
    ensures |bs| >= 4 && Int32At(bs, 0) != Some(Magic) ==> Parsed(bs, f32, f64) == Err(BadMagic)
    ensures var r := Parsed(bs, f32, f64);
      r.Ok? ==> |r.value| <= MaxSteps && (|r.value| > 0 ==> r.value[0].time == 0.0)
  {
    var header := HeaderAt(bs);
    if header.Ok? {
      var names := NamesAt(bs, 28, header.value);
      assert names.Ok? ==> NamesCover(header.value, names.value.value);
    }
  }

  /** The variable counts `parse` uses: from the codes block when there is one, sanitised, else 1 each. */
  lemma InferredCountsNonNegative(bs: seq<byte>, sysVarsPos: int)
    ensures var r := InferredCounts(bs, sysVarsPos);
      r.Ok? ==> r.value.sub >= 0 && r.value.node >= 0 && r.value.link >= 0 && r.value.sub <= 50
  {
    var lastLinkCode := Int32At(bs, sysVarsPos - 4);
    if lastLinkCode.Some? {
      var numLinkVars := lastLinkCode.value + 1;
      var linkBlockStart := sysVarsPos - numLinkVars * 4 - 4;
      var lastNodeCode := Int32At(bs, linkBlockStart - 4);
      if lastNodeCode.Some? {
        var numNodeVars := lastNodeCode.value + 1;
        var nodeBlockStart := linkBlockStart - 4 - numNodeVars * 4;
        var lastSubCode := Int32At(bs, nodeBlockStart - 4);
        if lastSubCode.Some? {
          SanitizedFacts(VarCounts(lastSubCode.value + 1, numNodeVars, numLinkVars));
        }
      }
    }
  }

  // ------------------------------------------------------------ report

  /** The table scanner's state: inside a table, and how many `---` lines it has passed. */
  datatype TableState = TableState(inTable: bool, separatorCount: nat)

  const Outside := TableState(false, 0)

  /** The header test for a plain pattern with alternatives: some alternative occurs in the line. */
  predicate HeaderMatches(line: string, headers: seq<string>) {
    exists h :: h in headers && Contains(line, h)
  }

  /** A trimmed line that ends a table: blank, a `***` banner or the `Analysis begun` line. */
  predicate EndsTable(line: string) {
    line == [] || StartsWith(line, "***") || StartsWith(line, "Analysis begun")
  }

  /** Lines 440-464: one line of the report; yields the row passed to the callback, if any. */
  function TableStep(st: TableState, raw: string, headers: seq<string>): (TableState, seq<seq<string>>) {
    var line := Trim(raw);
    if !st.inTable then
      (if HeaderMatches(line, headers) then TableState(true, 0) else st, [])
    else if StartsWith(line, "---") then (st.(separatorCount := st.separatorCount + 1), [])
    else if st.separatorCount < 2 then (st, [])
    else if EndsTable(line) then (st.(inTable := false), [])
    else
      var parts := Words(line);
      (st, if |parts| > 2 then [parts] else [])
  }

  /** The state after `lines` and the rows they yielded, in order. */
  function TableScan(lines: seq<string>, headers: seq<string>): (TableState, seq<seq<string>>)
    decreases |lines|
  {
    if lines == [] then (Outside, [])
    else
      var before := TableScan(lines[..|lines| - 1], headers);
      var after := TableStep(before.0, lines[|lines| - 1], headers);
      (after.0, before.1 + after.1)
  }

  /** Lines 434-467: the rows `parseTable` passes to its callback. */
  function TableRows(report: string, headers: seq<string>): seq<seq<string>> {
    TableScan(Split(report, '\n'), headers).1
  }

  /** A row as the callback receives it: more than two parts, none of them empty or holding white space. */
  ghost predicate RowShaped(row: seq<string>) {
    |row| > 2 && forall k :: 0 <= k < |row| ==> row[k] != [] && forall j :: 0 <= j < |row[k]| ==> !IsSpace(row[k][j])
  }

  lemma TableStepShape(st: TableState, raw: string, headers: seq<string>)
    ensures forall row :: row in TableStep(st, raw, headers).1 ==> RowShaped(row)
  {
    StepYieldsWords(st, raw, headers);
    if TableStep(st, raw, headers).1 != [] {
      ShapedWords(raw);
    }
  }

  /** More than two words of a trimmed line make a row the callback accepts. */
  lemma ShapedWords(raw: string)
    requires |Words(Trim(raw))| > 2
    ensures RowShaped(Words(Trim(raw)))
  {
    var line := Trim(raw);
    assert line != [];
    TrimFacts(raw);
    WordsOfTrimmed(line);
  }

  /** A step yields nothing, or the words of the trimmed line when there are more than two. */
  lemma StepYieldsWords(st: TableState, raw: string, headers: seq<string>)
    ensures TableStep(st, raw, headers).1 == [] || (TableStep(st, raw, headers).1 == [Words(Trim(raw))] && |Words(Trim(raw))| > 2)
  {
  }

  /** Every row has more than two parts, none of them empty or holding white space. */
  lemma {:induction false} TableRowsShape(lines: seq<string>, headers: seq<string>)
    ensures forall row :: row in TableScan(lines, headers).1 ==> RowShaped(row)
    decreases |lines|
  {
    if lines != [] {
      var init := lines[..|lines| - 1];
      TableRowsShape(init, headers);
      TableStepShape(TableScan(init, headers).0, lines[|lines| - 1], headers);
    }
  }

  lemma StepOutsideWithoutHeader(st: TableState, raw: string, headers: seq<string>)
    requires !st.inTable && !HeaderMatches(Trim(raw), headers)
    ensures TableStep(st, raw, headers) == (st, [])
  {
  }

  /** Without a header line nothing is read. */
  lemma {:induction false} NoHeaderNoRows(lines: seq<string>, headers: seq<string>)
    requires forall k :: 0 <= k < |lines| ==> !HeaderMatches(Trim(lines[k]), headers)
    ensures TableScan(lines, headers) == (Outside, [])
    decreases |lines|
  {
    if lines != [] {
      var init := lines[..|lines| - 1];
      assert forall k :: 0 <= k < |init| ==> init[k] == lines[k];
      NoHeaderNoRows(init, headers);
      StepOutsideWithoutHeader(Outside, lines[|lines| - 1], headers);
      var none: seq<seq<string>> := [];
      assert none + none == none;
    }
  }

  /** The lines that start, once trimmed, with `---`. */
  function Separators(lines: seq<string>): nat
    decreases |lines|
  {
    if lines == [] then 0
    else Separators(lines[..|lines| - 1]) + (if StartsWith(Trim(lines[|lines| - 1]), "---") then 1 else 0)
  }

  lemma StepSeparators(st: TableState, raw: string, headers: seq<string>)
    ensures var after := TableStep(st, raw, headers);
      && after.0.separatorCount <= st.separatorCount + (if StartsWith(Trim(raw), "---") then 1 else 0)
      && (after.1 != [] ==> st.separatorCount >= 2)
  {
  }

  /** A row is only read after two separator lines. */
  lemma {:induction false} RowsNeedTwoSeparators(lines: seq<string>, headers: seq<string>)
    ensures TableScan(lines, headers).0.separatorCount <= Separators(lines)
    ensures TableScan(lines, headers).1 != [] ==> Separators(lines) >= 2
    decreases |lines|
  {
    if lines != [] {
      var init := lines[..|lines| - 1];
      RowsNeedTwoSeparators(init, headers);
      StepSeparators(TableScan(init, headers).0, lines[|lines| - 1], headers);
    }
  }

  /** Outside a table, lines without a header change nothing. */
  lemma {:induction false} OutsideStaysOutside(prefix: seq<string>, rest: seq<string>, headers: seq<string>)
    requires !TableScan(prefix, headers).0.inTable
    requires forall k :: 0 <= k < |rest| ==> !HeaderMatches(Trim(rest[k]), headers)
    ensures TableScan(prefix + rest, headers) == TableScan(prefix, headers)
    decreases |rest|
  {
    if rest == [] {
      assert prefix + rest == prefix;
    } else {
      var init := rest[..|rest| - 1];
      assert (prefix + rest)[..|prefix + rest| - 1] == prefix + init;
      assert (prefix + rest)[|prefix + rest| - 1] == rest[|rest| - 1];
      assert forall k :: 0 <= k < |init| ==> init[k] == rest[k];
      OutsideStaysOutside(prefix, init, headers);
      StepOutsideWithoutHeader(TableScan(prefix, headers).0, rest[|rest| - 1], headers);
      assert TableScan(prefix, headers).1 + [] == TableScan(prefix, headers).1;
    }
  }

  lemma StepAtTerminator(st: TableState, t: string, headers: seq<string>)
    requires st.inTable && st.separatorCount >= 2
    requires EndsTable(Trim(t)) && !StartsWith(Trim(t), "---")
    ensures TableStep(st, t, headers) == (st.(inTable := false), [])
  {
  }

  /**
   * Once a table has passed its two separators, a blank line, a `***` line
   * or `Analysis begun` ends it: later lines yield nothing until a header
   * line comes again.
   */
  lemma TableEndsAtTerminator(prefix: seq<string>, t: string, rest: seq<string>, headers: seq<string>)
    requires TableScan(prefix, headers).0.inTable && TableScan(prefix, headers).0.separatorCount >= 2
    requires EndsTable(Trim(t)) && !StartsWith(Trim(t), "---")
    requires forall k :: 0 <= k < |rest| ==> !HeaderMatches(Trim(rest[k]), headers)
    ensures TableScan(prefix + [t] + rest, headers).1 == TableScan(prefix, headers).1
  {
    assert (prefix + [t])[..|prefix|] == prefix;
    StepAtTerminator(TableScan(prefix, headers).0, t, headers);
    assert TableScan(prefix + [t], headers).1 == TableScan(prefix, headers).1 + [];
    OutsideStaysOutside(prefix + [t], rest, headers);
  }

  /** One row of the link flow summary, as stored for the link. */
  datatype LinkSummary = LinkSummary(maxFlow: real, maxVelocity: real, flowCapacityRatio: real, depthRatio: real,
                                     capacity: real, utilization: real)

  /** `isNaN(x) ? 0 : x` */
  function ZeroIfNaN(n: Num): real {
    if n.NaN? then 0.0 else n.value
  }

  /** A ratio as a percentage, capped at 100. */
  function CappedPercent(ratio: real): real {
    if ratio * 100.0 > 100.0 then 100.0 else ratio * 100.0
  }

  function Quotient(a: real, b: real): real
    requires b != 0.0
  {
    a / b
  }

  /**
   * Lines 535-571, given the parsed maximum flow, maximum velocity, flow
   * ratio and depth ratio: the capacity is the flow (in L/s) over the flow
   * ratio, the utilisation the depth ratio as a capped percentage, with the
   * flow ratio as fallback. Without a numeric flow nothing is stored.
   */
  function LinkSummaryOf(maxFlow: Num, maxVel: Num, maxFullRatio: Num, maxDepthRatio: Num): Option<LinkSummary> {
    if maxFlow.NaN? then None
    else
      var capacity := if maxFullRatio.Real? && AbsReal(maxFullRatio.value) > 0.0001
        then Quotient(maxFlow.value * 1000.0, maxFullRatio.value) else 0.0;
      var utilization := if maxDepthRatio.Real? then CappedPercent(maxDepthRatio.value)
        else if maxFullRatio.Real? then CappedPercent(maxFullRatio.value) else 0.0;
      Some(LinkSummary(maxFlow.value * 1000.0, ZeroIfNaN(maxVel), ZeroIfNaN(maxFullRatio), ZeroIfNaN(maxDepthRatio),
                       capacity, utilization))
  }

  /** Lines 529-533: the flow from column 2, the velocity and the two ratios from the last three columns. */
  function LinkFlowRow(parts: seq<string>): Option<LinkSummary>
    requires |parts| > 2
  {
    var len := |parts|;
    LinkSummaryOf(ParseFloat(parts[2]), ParseFloat(parts[len - 3]), ParseFloat(parts[len - 2]), ParseFloat(parts[len - 1]))
  }

  lemma QuotientTimes(a: real, b: real)
    requires b != 0.0
    ensures Quotient(a, b) * b == a
  {
  }

  function Min100(x: real): real {
    if x < 100.0 then x else 100.0
  }

  /**
   * The utilisation is at most 100 and is the depth ratio's percentage when
   * that is a number, else the flow ratio's, else 0; the capacity is 0 for a
   * flow ratio that is NaN or within 0.0001 of 0, and otherwise times the
   * ratio gives the maximum flow back.
   */
  lemma LinkSummaryFacts(maxFlow: Num, maxVel: Num, ratio: Num, depth: Num)
    ensures var r := LinkSummaryOf(maxFlow, maxVel, ratio, depth);
      && (r.None? <==> maxFlow.NaN?)
      && (r.Some? ==> r.value.maxFlow == maxFlow.value * 1000.0 && r.value.utilization <= 100.0)
      && (r.Some? && depth.Real? ==> r.value.utilization == Min100(depth.value * 100.0))
      && (r.Some? && depth.NaN? && ratio.Real? ==> r.value.utilization == Min100(ratio.value * 100.0))
      && (r.Some? && depth.NaN? && ratio.NaN? ==> r.value.utilization == 0.0)
      && (r.Some? && (ratio.NaN? || AbsReal(ratio.value) <= 0.0001) ==> r.value.capacity == 0.0)
      && (r.Some? && ratio.Real? && AbsReal(ratio.value) > 0.0001 ==> r.value.capacity * ratio.value == r.value.maxFlow)
  {
    if maxFlow.Real? && ratio.Real? && AbsReal(ratio.value) > 0.0001 {
      QuotientTimes(maxFlow.value * 1000.0, ratio.value);
    }
  }

  /** The alternatives of the header pattern `(Link|Conduit) Flow Summary`. */
  const LinkFlowHeaders := ["Link Flow Summary", "Conduit Flow Summary"]

  /** The entries `keys[k] := vals[k]` for every present value, in order; a later key overrides an earlier one. */
  function Collect<V>(keys: seq<string>, vals: seq<Option<V>>): map<string, V>
    requires |keys| == |vals|
    decreases |keys|
  {
    if keys == [] then map[]
    else
      var m := Collect(keys[..|keys| - 1], vals[..|vals| - 1]);
      if vals[|vals| - 1].Some? then m[keys[|keys| - 1] := vals[|vals| - 1].value] else m
  }

  /** The last index at which `id` has a value. */
  ghost predicate LastWith<V>(keys: seq<string>, vals: seq<Option<V>>, id: string, k: int)
    requires |keys| == |vals|
  {
    0 <= k < |keys| && keys[k] == id && vals[k].Some?
    && forall j :: k < j < |keys| ==> keys[j] != id || vals[j].None?
  }

  /** A key is present exactly when it has a value somewhere, and it holds the value at its last such index. */
  lemma CollectFacts<V>(keys: seq<string>, vals: seq<Option<V>>, id: string)
    requires |keys| == |vals|
    ensures id in Collect(keys, vals) <==> exists k :: 0 <= k < |keys| && keys[k] == id && vals[k].Some?
    ensures id in Collect(keys, vals) ==> exists k :: LastWith(keys, vals, id, k) && vals[k] == Some(Collect(keys, vals)[id])
  {
    CollectHas(keys, vals, id);
    CollectLast(keys, vals, id);
  }

  /** One more key and value: the map of the prefix, updated when the value is present. */
  lemma CollectStep<V>(keys: seq<string>, vals: seq<Option<V>>)
    requires |keys| == |vals| > 0
    ensures Collect(keys, vals) == (
      var m := Collect(keys[..|keys| - 1], vals[..|keys| - 1]);
      if vals[|keys| - 1].Some? then m[keys[|keys| - 1] := vals[|keys| - 1].value] else m)
  {
  }

  lemma {:induction false} CollectHas<V>(keys: seq<string>, vals: seq<Option<V>>, id: string)
    requires |keys| == |vals|
    ensures id in Collect(keys, vals) <==> exists k :: 0 <= k < |keys| && keys[k] == id && vals[k].Some?
    decreases |keys|
  {
    if keys != [] {
      var last := |keys| - 1;
      var initK, initV := keys[..last], vals[..last];
      CollectHas(initK, initV, id);
      CollectStep(keys, vals);
      if exists k :: 0 <= k < |keys| && keys[k] == id && vals[k].Some? {
        var k :| 0 <= k < |keys| && keys[k] == id && vals[k].Some?;
        if k < last {
          assert initK[k] == keys[k] && initV[k] == vals[k];
        }
      }
      if id in Collect(initK, initV) {
        var k :| 0 <= k < |initK| && initK[k] == id && initV[k].Some?;
        assert keys[k] == id && vals[k].Some?;
      }
    }
  }

  lemma {:induction false} CollectLast<V>(keys: seq<string>, vals: seq<Option<V>>, id: string)
    requires |keys| == |vals|
    ensures id in Collect(keys, vals) ==> exists k :: LastWith(keys, vals, id, k) && vals[k] == Some(Collect(keys, vals)[id])
    decreases |keys|
  {
    if keys != [] {
      var last := |keys| - 1;
      var initK, initV := keys[..last], vals[..last];
      CollectLast(initK, initV, id);
      CollectStep(keys, vals);
      if keys[last] == id && vals[last].Some? {
        assert LastWith(keys, vals, id, last);
      } else if id in Collect(initK, initV) {
        var k :| LastWith(initK, initV, id, k) && initV[k] == Some(Collect(initK, initV)[id]);
        assert LastWith(keys, vals, id, k);
      }
    }
  }

  /** Every row has more than two parts, so columns 0 and 2 exist. */
  predicate RowsLong(rows: seq<seq<string>>) {
    forall k :: 0 <= k < |rows| ==> |rows[k]| > 2
  }

  lemma TableRowsLong(report: string, headers: seq<string>)
    ensures RowsLong(TableRows(report, headers))
  {
    var rows := TableRows(report, headers);
    TableRowsShape(Split(report, '\n'), headers);
    assert forall k :: 0 <= k < |rows| ==> RowShaped(rows[k]);
  }

  /** Lines 516-573: the links of the rows, each with the summary of its last row that has a numeric flow. */
  function LinkFlows(rows: seq<seq<string>>): map<string, LinkSummary>
    requires RowsLong(rows)
  {
    Collect(RowKeys(rows), RowFlows(rows))
  }

  /** The link name in column 0 of each row. */
  function RowKeys(rows: seq<seq<string>>): (keys: seq<string>)
    requires RowsLong(rows)
    ensures |keys| == |rows| && forall k :: 0 <= k < |rows| ==> keys[k] == rows[k][0]
  {
    seq(|rows|, k requires 0 <= k < |rows| => rows[k][0])
  }

  /** The summary each row gives, if its flow is numeric. */
  function RowFlows(rows: seq<seq<string>>): (vals: seq<Option<LinkSummary>>)
    requires RowsLong(rows)
    ensures |vals| == |rows| && forall k :: 0 <= k < |rows| ==> vals[k] == LinkFlowRow(rows[k])
  {
    seq(|rows|, k requires 0 <= k < |rows| => LinkFlowRow(rows[k]))
  }

  /**
   * A link is in the summary exactly when one of its rows has a numeric
   * flow, and it holds the summary computed from its last such row.
   */
  lemma LinkFlowsFacts(rows: seq<seq<string>>, id: string)
    requires RowsLong(rows)
    ensures id in LinkFlows(rows) <==> exists k :: 0 <= k < |rows| && rows[k][0] == id && LinkFlowRow(rows[k]).Some?
    ensures id in LinkFlows(rows) ==> exists k :: (0 <= k < |rows| && rows[k][0] == id && LinkFlowRow(rows[k]) == Some(LinkFlows(rows)[id])
      && forall j :: k < j < |rows| ==> rows[j][0] != id || LinkFlowRow(rows[j]).None?)
  {
    var keys, vals := RowKeys(rows), RowFlows(rows);
    CollectFacts(keys, vals, id);
    if id in LinkFlows(rows) {
      var k :| LastWith(keys, vals, id, k) && vals[k] == Some(Collect(keys, vals)[id]);
      assert forall j :: k < j < |rows| ==> keys[j] == rows[j][0] && vals[j] == LinkFlowRow(rows[j]);
    }
    if exists k :: 0 <= k < |rows| && rows[k][0] == id && LinkFlowRow(rows[k]).Some? {
      var k :| 0 <= k < |rows| && rows[k][0] == id && LinkFlowRow(rows[k]).Some?;
      assert keys[k] == id && vals[k].Some?;
    }
  }

  // ---------------------------------------------------------------- parser

  class SwmmOutParser {
    const view: seq<byte>
    const float32: seq<byte> -> real
    const float64: seq<byte> -> real
    var offset: int

    constructor(buffer: seq<byte>, float32: seq<byte> -> real, float64: seq<byte> -> real)
      ensures view == buffer && this.float32 == float32 && this.float64 == float64 && offset == 0
    {
      view := buffer;
      this.float32 := float32;
      this.float64 := float64;
      offset := 0;
    }

    /** Lines 12-16: read a 32-bit integer and advance by 4; a read past the end throws and moves nothing. */
    method ReadInt32() returns (r: Result<int>)
      modifies this
      ensures r == OrRangeError(Int32At(view, old(offset)))
      ensures offset == if r.Ok? then old(offset) + 4 else old(offset)
    {
      var val := Int32At(view, offset);
      if val.None? {
        return Err(RangeError);
      }
      offset := offset + 4;
      return Ok(val.value);
    }

    /** Lines 18-22: read a 32-bit float and advance by 4. */
    method ReadFloat32() returns (r: Result<real>)
      modifies this
      ensures r == OrRangeError(Float32At(view, old(offset), float32))
      ensures offset == if r.Ok? then old(offset) + 4 else old(offset)
    {
      var val := Float32At(view, offset, float32);
      if val.None? {
        return Err(RangeError);
      }
      offset := offset + 4;
      return Ok(val.value);
    }

    /** Lines 24-28: read a 64-bit float and advance by 8. */
    method ReadDouble() returns (r: Result<real>)
      modifies this
      ensures r == OrRangeError(Float64At(view, old(offset), float64))
      ensures offset == if r.Ok? then old(offset) + 8 else old(offset)
    {
      var val := Float64At(view, offset, float64);
      if val.None? {
        return Err(RangeError);
      }
      offset := offset + 8;
      return Ok(val.value);
    }

    /** Lines 65-70: read one length-prefixed id. */
    method ReadId() returns (r: Result<string>)
      modifies this
      ensures r == ValueOf(IdAt(view, old(offset)))
      ensures r.Ok? ==> offset == IdAt(view, old(offset)).value.next
    {
      var len := ReadInt32();
      if len.Err? {
        return Err(len.message);
      }
      if len.value < 0 || offset + len.value > |view| {
        return Err(RangeError);
      }
      var bytes := view[offset..offset + len.value];
      offset := offset + len.value;
      return Ok(Decode(bytes));
    }

    /** Lines 72-82: read `n` ids in a row. */
    method ReadIds(n: int) returns (r: Result<seq<string>>)
      modifies this
      ensures r == ValueOf(IdsAt(view, old(offset), n))
      ensures r.Ok? ==> offset == IdsAt(view, old(offset), n).value.next
    {
      ghost var start := offset;
      var ids: seq<string> := [];
      var i := 0;
      assert PrependIds([], IdsAt(view, offset, n)) == IdsAt(view, offset, n) by {
        if IdsAt(view, offset, n).Ok? {
          assert [] + IdsAt(view, offset, n).value.value == IdsAt(view, offset, n).value.value;
        }
      }
      while i < n
        invariant 0 <= i && (n >= 0 ==> i <= n)
        invariant IdsAt(view, start, n) == PrependIds(ids, IdsAt(view, offset, n - i))
      {
        ghost var before := offset;
        var id := ReadId();
        if id.Err? {
          return Err(id.message);
        }
        PrependIdsStep(view, before, n - i, ids);
        ids := ids + [id.value];
        i := i + 1;
      }
      assert ids + [] == ids;
      return Ok(ids);
    }

    /** Lines 123-128: does position `p`, below the scan limit, hold the codes 0 to 14 after a 15? */
    method MatchesSignature(p: int) returns (matched: bool)
      requires 0 <= p < ScanLimit(view)
      ensures matched == SignatureAt(view, p)
    {
      if Int32At(view, p) != Some(NumSysVars) {
        return false;
      }
      matched := true;
      var k := 0;
      while k < NumSysVars
        invariant 0 <= k <= NumSysVars
        invariant forall j :: 0 <= j < k ==> SlotAt(view, p, j) == Some(j)
      {
        if SlotAt(view, p, k).value != k {
          matched := false;
          break;
        }
        k := k + 1;
      }
    }

    /** Lines 112-134: the first position from 28 on, below the scan limit, that holds the signature; -1 if none does. */
    method ScanSignature() returns (sysVarsPos: int)
      ensures sysVarsPos == -1 || (28 <= sysVarsPos < ScanLimit(view) && SignatureAt(view, sysVarsPos))
      ensures forall q :: 28 <= q < ScanLimit(view) && (sysVarsPos == -1 || q < sysVarsPos) ==> !SignatureAt(view, q)
      ensures sysVarsPos == (if FirstSignature(view).None? then -1 else FirstSignature(view).value)
    {
      var limit := Min(|view| - 100, 5000);
      var p := 28;
      while p < limit
        invariant 28 <= p && (28 <= limit ==> p <= limit)
        invariant SignatureFrom(view, p) == FirstSignature(view)
        invariant forall q :: 28 <= q < p ==> !SignatureAt(view, q)
      {
        var matched := MatchesSignature(p);
        if matched {
          return p;
        }
        p := p + 1;
      }
      return -1;
    }

    /** Lines 141-197: the variable counts, inferred from the codes block or 1 each. */
    method InferCounts(sysVarsPos: int) returns (r: Result<VarCounts>)
      ensures r == if sysVarsPos == -1 then Ok(VarCounts(1, 1, 1)) else InferredCounts(view, sysVarsPos)
    {
      var numSubVars, numNodeVars, numLinkVars := 1, 1, 1;
      if sysVarsPos != -1 {
        var lastLinkCode := Int32At(view, sysVarsPos - 4);
        if lastLinkCode.None? {
          return Err(RangeError);
        }
        numLinkVars := lastLinkCode.value + 1;
        var linkBlockStart := sysVarsPos - (numLinkVars * 4) - 4;
        var lastNodeCode := Int32At(view, linkBlockStart - 4);
        if lastNodeCode.None? {
          return Err(RangeError);
        }
        numNodeVars := lastNodeCode.value + 1;
        var nodeBlockStart := linkBlockStart - 4 - (numNodeVars * 4);
        var lastSubCode := Int32At(view, nodeBlockStart - 4);
        if lastSubCode.None? {
          return Err(RangeError);
        }
        numSubVars := lastSubCode.value + 1;
        if numSubVars < 0 || numNodeVars < 0 || numLinkVars < 0 || numSubVars > 50 {
          numSubVars, numNodeVars, numLinkVars := 1, 1, 1;
        }
      }
      return Ok(VarCounts(numSubVars, numNodeVars, numLinkVars));
    }

    /** Lines 208-227: jump to the trailer's output position when it is usable. */
    method SeekResults()
      modifies this
      ensures offset == ResultsStart(view, old(offset))
    {
      var fileLen := |view|;
      var trailerOffset := fileLen - 24;
      if trailerOffset > 0 {
        var tempOffset := offset;
        var magic2 := Int32At(view, fileLen - 4);
        if magic2 == Some(Magic) {
          var outPos := Int32At(view, trailerOffset + 8).value;
          if outPos > 0 && outPos < fileLen {
            if outPos >= tempOffset {
              offset := outPos;
            }
          }
        }
      }
    }

    /** Lines 267-312: the records of `n` objects of one kind, `stride` bytes apart, from the current offset. */
    method ReadReadings(ids: seq<string>, n: int, stride: int, kind: Kind) returns (r: Result<map<string, Reading>>)
      requires n <= |ids|
      modifies this
      ensures r == ValueOf(ReadingsFrom(view, old(offset), ids, 0, n, stride, kind, float32, map[]))
      ensures r.Ok? ==> offset == ReadingsFrom(view, old(offset), ids, 0, n, stride, kind, float32, map[]).value.next
    {
      ghost var start := offset;
      var acc: map<string, Reading> := map[];
      var i: nat := 0;
      while i < n
        invariant ReadingsFrom(view, start, ids, 0, n, stride, kind, float32, map[]) == ReadingsFrom(view, offset, ids, i, n, stride, kind, float32, acc)
      {
        var reading := ReadingAt(view, offset, kind, float32);
        if reading.None? {
          return Err(RangeError);
        }
        acc := acc[ids[i] := reading.value];
        offset := offset + stride;
        i := i + 1;
      }
      return Ok(acc);
    }

    /** Lines 254-318: one step record. */
    method ReadStep(l: Layout, names: Names, stepCount: nat) returns (r: Result<Step>)
      requires NamesFit(l, names)
      modifies this
      ensures r == ValueOf(StepAt(view, old(offset), l, names, stepCount, float32, float64))
      ensures r.Ok? ==> offset == StepAt(view, old(offset), l, names, stepCount, float32, float64).value.next
    {
      var date := ReadDouble();
      if date.Err? {
        return Err(date.message);
      }
      var subs := ReadReadings(names.subcatch, l.numSubcatch, l.vars.sub * 4, SubKind);
      if subs.Err? {
        return Err(subs.message);
      }
      var nodes := ReadReadings(names.nodes, l.numNodes, l.vars.node * 4, NodeKind);
      if nodes.Err? {
        return Err(nodes.message);
      }
      var links := ReadReadings(names.links, l.numLinks, l.vars.link * 4, LinkKind);
      if links.Err? {
        return Err(links.message);
      }
      offset := offset + NumSysVars * 4;
      return Ok(Step(stepCount as real * 60.0, date.value, nodes.value, links.value, subs.value));
    }

    /** Lines 230-319: read steps from the current offset until the loop stops. */
    method ReadSteps(l: Layout, names: Names) returns (r: Result<seq<Step>>)
      requires NamesFit(l, names)
      modifies this
      ensures r == StepsFrom(view, old(offset), 0, l, names, float32, float64)
    {
      ghost var goal := StepsFrom(view, offset, 0, l, names, float32, float64);
      var timeSeries: seq<Step> := [];
      var stepCount: nat := 0;
      PrependNothing(goal);
      while true
        invariant stepCount <= MaxSteps
        invariant goal == PrependSteps(timeSeries, StepsFrom(view, offset, stepCount, l, names, float32, float64))
        decreases MaxSteps - stepCount
      {
        var done, outcome, next := NextStep(l, names, stepCount, timeSeries);
        if done {
          return outcome;
        }
        timeSeries := next;
        stepCount := stepCount + 1;
      }
    }

    /**
     * One round of the loop of lines 248-319: stop when the loop condition
     * fails or a step does not fit, fail on a step that cannot be read, or
     * add the step read.
     */
    method NextStep(l: Layout, names: Names, stepCount: nat, timeSeries: seq<Step>)
      returns (done: bool, r: Result<seq<Step>>, next: seq<Step>)
      requires NamesFit(l, names) && stepCount <= MaxSteps
      modifies this
      ensures done ==> r == PrependSteps(timeSeries, StepsFrom(view, old(offset), stepCount, l, names, float32, float64))
      ensures !done ==> stepCount < MaxSteps
      ensures !done ==> (PrependSteps(timeSeries, StepsFrom(view, old(offset), stepCount, l, names, float32, float64))
                         == PrependSteps(next, StepsFrom(view, offset, stepCount + 1, l, names, float32, float64)))
    {
      if !(offset < |view| - 16 && stepCount < MaxSteps) || |view| - offset < BytesPerStep(l) {
        StepsStop(view, offset, stepCount, l, names, float32, float64);
        assert timeSeries + [] == timeSeries;
        return true, Ok(timeSeries), timeSeries;
      }
      ghost var before := offset;
      var step := ReadStep(l, names, stepCount);
      if step.Err? {
        StepsFail(view, before, stepCount, l, names, float32, float64);
        return true, Err(step.message), timeSeries;
      }
      PrependStepsStep(view, before, stepCount, l, names, float32, float64, timeSeries);
      return false, Ok(timeSeries), timeSeries + [step.value];
    }

    /** Lines 321-328: each step's time becomes the seconds since the first step's date. */
    static method PostProcessTimes(timeSeries: seq<Step>) returns (r: seq<Step>)
      ensures r == WithTimes(timeSeries)
    {
      r := timeSeries;
      if |timeSeries| > 0 {
        var startJD := timeSeries[0].date;
        var k := 0;
        while k < |r|
          invariant 0 <= k <= |r| == |timeSeries|
          invariant forall j :: 0 <= j < k ==> r[j] == timeSeries[j].(time := (timeSeries[j].date - startJD) * 86400.0)
          invariant forall j :: k <= j < |r| ==> r[j] == timeSeries[j]
        {
          r := r[k := r[k].(time := (r[k].date - startJD) * 86400.0)];
          k := k + 1;
        }
      }
    }

    /** Lines 440-464: the body of `parseTable`'s loop for one line. */
    static method ScanLine(inTable: bool, separatorCount: nat, raw: string, headers: seq<string>)
      returns (inTable': bool, separatorCount': nat, row: seq<seq<string>>)
      ensures (TableState(inTable', separatorCount'), row) == TableStep(TableState(inTable, separatorCount), raw, headers)
    {
      inTable', separatorCount', row := inTable, separatorCount, [];
      var line := Trim(raw);
      if !inTable {
        if HeaderMatches(line, headers) {
          inTable' := true;
          separatorCount' := 0;
        }
        return;
      }
      if StartsWith(line, "---") {
        separatorCount' := separatorCount + 1;
        return;
      }
      if separatorCount < 2 {
        return;
      }
      if line == [] {
        inTable' := false;
        return;
      }
      if StartsWith(line, "***") || StartsWith(line, "Analysis begun") {
        inTable' := false;
        return;
      }
      var parts := Words(line);
      if |parts| > 2 {
        row := [parts];
      }
    }

    /** Lines 434-467: `parseTable`, the rows of the tables whose header line matches. */
    static method ParseTable(report: string, headers: seq<string>) returns (rows: seq<seq<string>>)
      ensures rows == TableRows(report, headers)
    {
      var lines := Split(report, '\n');
      var inTable := false;
      var separatorCount: nat := 0;
      rows := [];
      var i := 0;
      while i < |lines|
        invariant 0 <= i <= |lines|
        invariant TableScan(lines[..i], headers) == (TableState(inTable, separatorCount), rows)
      {
        assert lines[..i + 1][..i] == lines[..i];
        var row;
        inTable, separatorCount, row := ScanLine(inTable, separatorCount, lines[i], headers);
        rows := rows + row;
        i := i + 1;
      }
      assert lines[..i] == lines;
    }

    /** Lines 516-573: the link flow summary of a report. */
    static method ParseLinkFlows(report: string) returns (edges: map<string, LinkSummary>)
      ensures RowsLong(TableRows(report, LinkFlowHeaders)) && edges == LinkFlows(TableRows(report, LinkFlowHeaders))
    {
      var rows := ParseTable(report, LinkFlowHeaders);
      TableRowsLong(report, LinkFlowHeaders);
      edges := LinkFlows(rows);
    }

    /** Lines 40-51: the opening record, from offset 0. */
    method ReadHeader() returns (r: Result<Counts>)
      modifies this
      ensures r == HeaderAt(view)
      ensures r.Ok? ==> offset == 28
    {
      offset := 0;
      var magic1 := ReadInt32();
      if magic1.Err? {
        return Err(magic1.message);
      }
      if magic1.value != Magic {
        return Err(BadMagic);
      }
      var version := ReadInt32();
      var flowUnits := ReadInt32();
      var numSubcatch := ReadInt32();
      var numNodes := ReadInt32();
      var numLinks := ReadInt32();
      var numPolluts := ReadInt32();
      if version.Err? || flowUnits.Err? || numSubcatch.Err? || numNodes.Err? || numLinks.Err? || numPolluts.Err? {
        return Err(RangeError);
      }
      return Ok(Counts(version.value, flowUnits.value, numSubcatch.value, numNodes.value, numLinks.value, numPolluts.value));
    }

    /** Lines 72-82: the ids of every object kind, in order. */
    method ReadNames(c: Counts) returns (r: Result<Names>)
      modifies this
      ensures r == ValueOf(NamesAt(view, old(offset), c))
      ensures r.Ok? ==> offset == NamesAt(view, old(offset), c).value.next
    {
      var subcatchIds := ReadIds(c.numSubcatch);
      if subcatchIds.Err? {
        return Err(subcatchIds.message);
      }
      var nodeIds := ReadIds(c.numNodes);
      if nodeIds.Err? {
        return Err(nodeIds.message);
      }
      var linkIds := ReadIds(c.numLinks);
      if linkIds.Err? {
        return Err(linkIds.message);
      }
      var pollutIds := ReadIds(c.numPolluts);
      if pollutIds.Err? {
        return Err(pollutIds.message);
      }
      return Ok(Names(subcatchIds.value, nodeIds.value, linkIds.value, pollutIds.value));
    }

    /** Lines 102-330: everything after the ids. */
    method ReadResults(c: Counts, names: Names) returns (r: Result<seq<Step>>)
      requires NamesCover(c, names)
      modifies this
      ensures r == ResultsAfterNames(view, c, names, old(offset), float32, float64)
    {
      ghost var afterIds := offset;
      offset := offset + c.numSubcatch * 4;
      offset := offset + c.numNodes * 3 * 4;
      var sysVarsPos := ScanSignature();
      var vars := InferCounts(sysVarsPos);
      ghost var found := FirstSignature(view);
      assert vars == if found.None? then Ok(VarCounts(1, 1, 1)) else InferredCounts(view, found.value);
      if vars.Err? {
        return Err(vars.message);
      }
      if sysVarsPos != -1 {
        offset := sysVarsPos + 4 + 15 * 4;
      }
      assert offset == if found.None? then afterIds + c.numSubcatch * 4 + c.numNodes * 3 * 4 else found.value + 4 + NumSysVars * 4;
      SeekResults();
      var l := Layout(c.numSubcatch, c.numNodes, c.numLinks, vars.value);
      ghost var start := offset;
      r := ReadTimed(l, names);
      assert r == Timed(StepsFrom(view, start, 0, l, names, float32, float64));
    }

    /** Lines 230-331: the steps from the current offset, their times post-processed. */
    method ReadTimed(l: Layout, names: Names) returns (r: Result<seq<Step>>)
      requires NamesFit(l, names)
      modifies this
      ensures r == Timed(StepsFrom(view, old(offset), 0, l, names, float32, float64))
    {
      var timeSeries := ReadSteps(l, names);
      if timeSeries.Err? {
        return timeSeries;
      }
      var timed := PostProcessTimes(timeSeries.value);
      return Ok(timed);
    }

    /** Lines 39-331: `parse`. */
    method Parse() returns (r: Result<seq<Step>>)
      modifies this
      ensures r == Parsed(view, float32, float64)
    {
      var c := ReadHeader();
      if c.Err? {
        return Err(c.message);
      }
      var names := ReadNames(c.value);
      if names.Err? {
        return Err(names.message);
      }
      r := ReadResults(c.value, names.value);
    }
  }
}
