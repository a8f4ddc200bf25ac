/**
 * `OutputProcessor`: reads a LISFLOOD ASCII grid (six header lines, then
 * whitespace-separated numbers) from raw bytes. The body is crawled byte by
 * byte: runs of number characters form tokens, each of the first
 * `ncols * nrows` tokens is parsed and stored in file order, no-data values
 * are stored as 0 and left out of the minimum, the maximum and the
 * negative-depth flag.
 */
module OutputProcessor {
  import opened Wrappers
  import opened JsNum
  import opened JsText
  import opened Bytes

  const Newline: byte := 10

  /** `unstableThreshold`: a valid value below it marks a negative depth. */
  const UnstableThreshold := -0.1

  /** The default no-data value when the header has none. */
  const DefaultNoData := -9999.0

  // ------------------------------------------------------------- header

  /** The number of newline bytes in `bs`. */
  function Newlines(bs: seq<byte>): nat
    decreases |bs|
  {
    if bs == [] then 0 else Newlines(bs[..|bs| - 1]) + (if bs[|bs| - 1] == Newline then 1 else 0)
  }

  /** The end of the header when the scan has reached position `i` having counted `count` newlines. */
  function HeaderEndFrom(raw: seq<byte>, i: nat, count: nat): (e: nat)
    requires i <= |raw|
    ensures i <= e <= |raw|
    decreases |raw| - i
  {
    if count >= 6 || i == |raw| then i
    else HeaderEndFrom(raw, i + 1, count + (if raw[i] == Newline then 1 else 0))
  }

  /** The length of the header: the bytes up to and including the sixth newline, or all bytes when there are fewer. */
  function HeaderEnd(raw: seq<byte>): (e: nat)
    ensures e <= |raw|
  {
    HeaderEndFrom(raw, 0, 0)
  }

  /** The header ends just after the sixth newline. */
  ghost predicate EndsAfterSixthNewline(raw: seq<byte>, e: nat) {
    0 < e <= |raw| && Newlines(raw[..e]) == 6 && raw[e - 1] == Newline
  }

  lemma {:induction false} HeaderEndFromFacts(raw: seq<byte>, i: nat, count: nat)
    requires i <= |raw| && count <= 6 && count == Newlines(raw[..i])
    requires count == 6 ==> EndsAfterSixthNewline(raw, i)
    ensures var e := HeaderEndFrom(raw, i, count);
      && i <= e <= |raw|
      && (Newlines(raw) < 6 ==> e == |raw|)
      && (Newlines(raw) >= 6 ==> EndsAfterSixthNewline(raw, e))
    decreases |raw| - i
  {
    assert raw[..|raw|] == raw;
    if count < 6 && i < |raw| {
      assert raw[..i + 1][..i] == raw[..i];
      HeaderEndFromFacts(raw, i + 1, count + (if raw[i] == Newline then 1 else 0));
    } else if count == 6 {
      NewlinesOfPrefix(raw, i);
    }
  }

  lemma {:induction false} NewlinesOfPrefix(raw: seq<byte>, i: nat)
    requires i <= |raw|
    ensures Newlines(raw[..i]) <= Newlines(raw)
    decreases |raw| - i
  {
    if i < |raw| {
      assert raw[..i + 1][..i] == raw[..i];
      NewlinesOfPrefix(raw, i + 1);
    } else {
      assert raw[..i] == raw;
    }
  }

  /**
   * With fewer than six newlines the header takes all bytes; otherwise it
   * ends just after the sixth newline.
   */
  lemma HeaderEndFacts(raw: seq<byte>)
    ensures Newlines(raw) < 6 ==> HeaderEnd(raw) == |raw|
    ensures Newlines(raw) >= 6 ==> EndsAfterSixthNewline(raw, HeaderEnd(raw))
  {
    HeaderEndFromFacts(raw, 0, 0);
  }

  /** The header scan of `parseAsync`: count newlines until the sixth or the end of the buffer. */
  method ScanHeader(raw: seq<byte>) returns (headerEndIndex: nat, lineCount: nat)
    ensures headerEndIndex == HeaderEnd(raw)
    ensures lineCount < 6 <==> Newlines(raw) < 6
  {
    headerEndIndex, lineCount := 0, 0;
    while lineCount < 6 && headerEndIndex < |raw|
      invariant headerEndIndex <= |raw| && lineCount <= 6
      invariant lineCount == Newlines(raw[..headerEndIndex])
      invariant HeaderEndFrom(raw, headerEndIndex, lineCount) == HeaderEnd(raw)
    {
      assert raw[..headerEndIndex + 1][..headerEndIndex] == raw[..headerEndIndex];
      if raw[headerEndIndex] == Newline {
        lineCount := lineCount + 1;
      }
      headerEndIndex := headerEndIndex + 1;
    }
    HeaderEndFacts(raw);
    if lineCount < 6 {
      assert raw[..headerEndIndex] == raw;
    } else {
      NewlinesOfPrefix(raw, headerEndIndex);
    }
  }

  /** One header line: a non-blank line with at least two words sets the lower-cased first word to the number in the second. */
  function HeaderLine(header: map<string, Num>, line: string): map<string, Num> {
    var trimmed := Trim(line);
    if trimmed == [] then header
    else
      var parts := Words(trimmed);
      if |parts| >= 2 then header[ToLower(parts[0]) := ParseFloat(parts[1])] else header
  }

  /** The header lines in order; a later line with the same key wins. */
  function HeaderLines(lines: seq<string>): map<string, Num>
    decreases |lines|
  {
    if lines == [] then map[] else HeaderLine(HeaderLines(lines[..|lines| - 1]), lines[|lines| - 1])
  }

  /** Both `ncols` and `nrows` are present, non-zero and not NaN. */
  predicate HasGridSize(header: map<string, Num>) {
    "ncols" in header && Truthy(header["ncols"]) && "nrows" in header && Truthy(header["nrows"])
  }

  /** `parseHeader`: the entries of the header lines, or null without a usable grid size. */
  function ParseHeader(s: string): (r: Option<map<string, Num>>)
    ensures r.Some? <==> HasGridSize(HeaderLines(Split(s, '\n')))
    ensures r.Some? ==> r.value == HeaderLines(Split(s, '\n'))
  {
    var header := HeaderLines(Split(s, '\n'));
    if HasGridSize(header) then Some(header) else None
  }

  lemma {:induction false} WordsOfWord(w: string)
    requires forall k :: 0 <= k < |w| ==> !IsSpace(w[k])
    ensures Words(w) == [w]
    decreases |w|
  {
    if w != [] {
      WordsOfWord(w[1..]);
      assert [w[0]] + w[1..] == w;
    }
  }

  lemma {:induction false} WordsOfPair(a: string, b: string)
    requires forall k :: 0 <= k < |a| ==> !IsSpace(a[k])
    requires b != [] && forall k :: 0 <= k < |b| ==> !IsSpace(b[k])
    ensures Words(a + [' '] + b) == [a, b]
    decreases |a|
  {
    if a == [] {
      assert a + [' '] + b == [' '] + b;
      assert TrimStart([' '] + b) == TrimStart(b);
      assert TrimStart(b) == b;
      WordsOfWord(b);
    } else {
      var s := a + [' '] + b;
      assert s[0] == a[0] && !IsSpace(s[0]);
      assert s[1..] == a[1..] + [' '] + b;
      WordsOfPair(a[1..], b);
      var rest := Words(s[1..]);
      assert rest == [a[1..], b];
      assert Words(s) == [[s[0]] + rest[0]] + rest[1..];
      assert [a[0]] + a[1..] == a;
    }
  }

  lemma DigitsAreNotSpaces(v: string)
    requires AllDigits(v)
    ensures forall k :: 0 <= k < |v| ==> !IsSpace(v[k])
  {
    forall k | 0 <= k < |v|
      ensures !IsSpace(v[k])
    {
      assert IsDigit(v[k]);
    }
  }

  lemma TrimOfUnpadded(line: string)
    requires line != [] && !IsSpace(line[0]) && !IsSpace(line[|line| - 1])
    ensures Trim(line) == line
  {
    assert TrimStart(line) == line;
  }

  /**
   * A line `key value`, with a one-word key and a natural number as value,
   * sets the lower-cased key to that number.
   */
  lemma HeaderLineSetsEntry(header: map<string, Num>, key: string, n: nat)
    requires key != [] && forall k :: 0 <= k < |key| ==> !IsSpace(key[k])
    ensures HeaderLine(header, key + [' '] + NatToString(n)) == header[ToLower(key) := Real(n as real)]
  {
    var v := NatToString(n);
    assert v + [] == v;
    ParseFloatOfNat(n, []);
    HeaderLineOfWordAndValue(header, key, v);
  }

  lemma HeaderLineOfWordAndValue(header: map<string, Num>, key: string, v: string)
    requires key != [] && forall k :: 0 <= k < |key| ==> !IsSpace(key[k])
    requires v != [] && AllDigits(v)
    ensures HeaderLine(header, key + [' '] + v) == header[ToLower(key) := ParseFloat(v)]
  {
    var line := key + [' '] + v;
    DigitsAreNotSpaces(v);
    assert line[0] == key[0];
    assert line[|line| - 1] == v[|v| - 1];
    TrimOfUnpadded(line);
    WordsOfPair(key, v);
    HeaderLineOfPair(header, line, key, v);
  }

  lemma HeaderLineOfPair(header: map<string, Num>, line: string, a: string, b: string)
    requires line != [] && Trim(line) == line && Words(line) == [a, b]
    ensures HeaderLine(header, line) == header[ToLower(a) := ParseFloat(b)]
  {
  }

  // --------------------------------------------------------------- tokens

  /** The bytes that can be part of a number: the digits, `.`, `-`, `+`, `e` and `E`. */
  predicate IsNumberByte(b: byte) {
    (48 <= b <= 57) || b == 46 || b == 45 || b == 101 || b == 69 || b == 43
  }

  /** The run of number bytes at the end of `bs`, as text. */
  function Pending(bs: seq<byte>): string
    decreases |bs|
  {
    if bs == [] then []
    else if IsNumberByte(bs[|bs| - 1]) then Pending(bs[..|bs| - 1]) + [ToChar(bs[|bs| - 1])]
    else []
  }

  /** The runs of number bytes in `bs` that a separator has closed, in order. */
  function Completed(bs: seq<byte>): seq<string>
    decreases |bs|
  {
    if bs == [] then []
    else
      var init := bs[..|bs| - 1];
      if IsNumberByte(bs[|bs| - 1]) || Pending(init) == [] then Completed(init)
      else Completed(init) + [Pending(init)]
  }

  /** All runs of number bytes in `bs`, the one at the very end included. */
  function Tokens(bs: seq<byte>): seq<string> {
    Completed(bs) + (if Pending(bs) == [] then [] else [Pending(bs)])
  }

  /** A run of number bytes is one token. */
  lemma {:induction false} PendingOfRun(bs: seq<byte>)
    requires forall k :: 0 <= k < |bs| ==> IsNumberByte(bs[k])
    ensures Pending(bs) == Decode(bs) && Completed(bs) == []
    decreases |bs|
  {
    if bs != [] {
      PendingOfRun(bs[..|bs| - 1]);
      assert Decode(bs) == Decode(bs[..|bs| - 1]) + [ToChar(bs[|bs| - 1])];
    }
  }

  lemma {:induction false} CompletedAfterSeparator(a: seq<byte>, sep: byte, b: seq<byte>)
    requires !IsNumberByte(sep)
    ensures Completed(a + [sep] + b) == Tokens(a) + Completed(b)
    ensures Pending(a + [sep] + b) == Pending(b)
    decreases |b|
  {
    if b == [] {
      assert (a + [sep] + b)[..|a + [sep] + b| - 1] == a;
      assert a + [sep] + b == a + [sep];
    } else {
      var init := b[..|b| - 1];
      assert (a + [sep] + b)[..|a + [sep] + b| - 1] == a + [sep] + init;
      CompletedAfterSeparator(a, sep, init);
    }
  }

  /** The tokens of two pieces joined by a separator are the tokens of the first piece followed by those of the second. */
  lemma TokensSplitAtSeparator(a: seq<byte>, sep: byte, b: seq<byte>)
    requires !IsNumberByte(sep)
    ensures Tokens(a + [sep] + b) == Tokens(a) + Tokens(b)
  {
    CompletedAfterSeparator(a, sep, b);
  }

  // --------------------------------------------------------------- values

  predicate IsNoData(v: Num, noData: Num) {
    v.Real? && noData.Real? && AbsReal(v.value - noData.value) < 0.0001
  }

  /** The value stored for a parsed token: 0 in place of no-data. */
  function Stored(v: Num, noData: Num): Num {
    if IsNoData(v, noData) then Real(0.0) else v
  }

  /** A parsed value that enters the statistics: a number that is not no-data. */
  predicate Counts(v: Num, noData: Num) {
    v.Real? && !IsNoData(v, noData)
  }

  function StoredValues(tokens: seq<string>, noData: Num): (vs: seq<Num>)
    ensures |vs| == |tokens|
    ensures forall k :: 0 <= k < |tokens| ==> vs[k] == Stored(ParseFloat(tokens[k]), noData)
  {
    seq(|tokens|, k requires 0 <= k < |tokens| => Stored(ParseFloat(tokens[k]), noData))
  }

  /** The values of the tokens that enter the statistics, in order. */
  function CountedValues(tokens: seq<string>, noData: Num): seq<real>
    decreases |tokens|
  {
    if tokens == [] then []
    else
      var v := ParseFloat(tokens[|tokens| - 1]);
      CountedValues(tokens[..|tokens| - 1], noData) + (if Counts(v, noData) then [v.value] else [])
  }

  /** Exactly the counted tokens contribute, and no contributed value is a no-data value. */
  lemma CountedValuesFacts(tokens: seq<string>, noData: Num)
    ensures forall x :: x in CountedValues(tokens, noData) ==>
      (exists k :: 0 <= k < |tokens| && ParseFloat(tokens[k]) == Real(x)) && Counts(Real(x), noData)
    ensures forall k :: 0 <= k < |tokens| && Counts(ParseFloat(tokens[k]), noData) ==> ParseFloat(tokens[k]).value in CountedValues(tokens, noData)
  {
    CountedValuesSound(tokens, noData);
    CountedValuesComplete(tokens, noData);
  }

  /** Every contributed value is the parse of some token and counts. */
  lemma {:induction false} CountedValuesSound(tokens: seq<string>, noData: Num)
    ensures forall x :: x in CountedValues(tokens, noData) ==>
      (exists k :: 0 <= k < |tokens| && ParseFloat(tokens[k]) == Real(x)) && Counts(Real(x), noData)
    decreases |tokens|
  {
    if tokens != [] {
      var init := tokens[..|tokens| - 1];
      var v := ParseFloat(tokens[|tokens| - 1]);
      CountedValuesSound(init, noData);
      assert CountedValues(tokens, noData) == CountedValues(init, noData) + (if Counts(v, noData) then [v.value] else []);
      forall x | x in CountedValues(tokens, noData)
        ensures (exists k :: 0 <= k < |tokens| && ParseFloat(tokens[k]) == Real(x)) && Counts(Real(x), noData)
      {
        if x in CountedValues(init, noData) {
          var k :| 0 <= k < |init| && ParseFloat(init[k]) == Real(x);
          assert tokens[k] == init[k];
        } else {
          assert v == Real(x);
        }
      }
    }
  }

  /** Every token whose value counts contributes it. */
  lemma {:induction false} CountedValuesComplete(tokens: seq<string>, noData: Num)
    ensures forall k :: 0 <= k < |tokens| && Counts(ParseFloat(tokens[k]), noData) ==> ParseFloat(tokens[k]).value in CountedValues(tokens, noData)
    decreases |tokens|
  {
    if tokens != [] {
      var init := tokens[..|tokens| - 1];
      var v := ParseFloat(tokens[|tokens| - 1]);
      CountedValuesComplete(init, noData);
      var before := CountedValues(init, noData);
      assert CountedValues(tokens, noData) == before + (if Counts(v, noData) then [v.value] else []);
      forall k | 0 <= k < |tokens| && Counts(ParseFloat(tokens[k]), noData)
        ensures ParseFloat(tokens[k]).value in CountedValues(tokens, noData)
      {
        if k < |init| {
          assert tokens[k] == init[k];
          assert ParseFloat(tokens[k]).value in before;
        } else {
          assert k == |tokens| - 1 && ParseFloat(tokens[k]) == v;
          assert CountedValues(tokens, noData) == before + [v.value];
          assert CountedValues(tokens, noData)[|before|] == v.value;
        }
      }
    }
  }

  /** The smallest of `xs`, found as the source does with `if (val < min) min = val`; none for no values. */
  function MinOf(xs: seq<real>): (m: Option<real>)
    ensures m.None? <==> xs == []
    ensures m.Some? ==> m.value in xs && forall x :: x in xs ==> m.value <= x
    decreases |xs|
  {
    if xs == [] then None
    else
      var prev := MinOf(xs[..|xs| - 1]);
      var x := xs[|xs| - 1];
      assert xs == xs[..|xs| - 1] + [x];
      if prev.None? || x < prev.value then Some(x) else prev
  }

  /** The largest of `xs`; none for no values. */
  function MaxOf(xs: seq<real>): (m: Option<real>)
    ensures m.None? <==> xs == []
    ensures m.Some? ==> m.value in xs && forall x :: x in xs ==> x <= m.value
    decreases |xs|
  {
    if xs == [] then None
    else
      var prev := MaxOf(xs[..|xs| - 1]);
      var x := xs[|xs| - 1];
      assert xs == xs[..|xs| - 1] + [x];
      if prev.None? || x > prev.value then Some(x) else prev
  }

  function OrZero(m: Option<real>): real {
    if m.Some? then m.value else 0.0
  }

  /** Some value lies below `threshold`. */
  predicate AnyBelow(xs: seq<real>, threshold: real) {
    exists x :: x in xs && x < threshold
  }

  // ------------------------------------------------------------ the grid

  /** `header.nodata_value`, or -9999 when the header has none. */
  function NoDataOf(header: map<string, Num>): Num {
    if "nodata_value" in header then header["nodata_value"] else Real(DefaultNoData)
  }

  /** The number of tokens read: the non-negative integers below `total`. */
  function Cap(total: real): (n: nat)
    ensures total <= (n as real) && (n == 0 || ((n - 1) as real) < total)
  {
    if total <= 0.0 then 0 else -((-total).Floor)
  }

  /** `valIndex < totalCells` holds exactly for the first `Cap(totalCells)` indices. */
  lemma CapBounds(k: nat, total: real)
    ensures (k as real) < total <==> k < Cap(total)
  {
  }

  /** The length `new Float32Array(total)` gets: `total` truncated, or none when that is negative (a RangeError). */
  function ArrayLength(total: real): Option<nat> {
    if total <= -1.0 then None else if total < 0.0 then Some(0) else Some(total.Floor)
  }

  /** The first `n` elements of `s`, or all of them when there are fewer. */
  function Take(s: seq<string>, n: nat): (r: seq<string>)
    ensures |r| == Min(|s|, n) && r == s[..|r|]
  {
    if |s| <= n then s else s[..n]
  }

  /** The values written into an array of `length` zeros in order, those beyond its end dropped. */
  function Padded(vs: seq<Num>, length: nat): (r: seq<Num>)
    ensures |r| == length
    ensures forall k :: 0 <= k < length ==> r[k] == if k < |vs| then vs[k] else Real(0.0)
  {
    seq(length, k requires 0 <= k < length => if k < |vs| then vs[k] else Real(0.0))
  }

  datatype Grid = Grid(header: map<string, Num>, data: seq<Num>, min: real, max: real, hasNegativeDepth: bool)

  /** The outcome of `parseAsync`: a refusal, a thrown RangeError, or the parsed grid. */
  datatype Outcome = Invalid(error: string) | Thrown(error: string) | Parsed(grid: Grid)

  /** The grid the body bytes give under `header`, for an array of `length` cells and `total` cells to read. */
  function GridOf(header: map<string, Num>, body: seq<byte>, total: real, length: nat): Grid {
    var noData := NoDataOf(header);
    var read := Take(Tokens(body), Cap(total));
    var counted := CountedValues(read, noData);
    Grid(header, Padded(StoredValues(read, noData), length), OrZero(MinOf(counted)), OrZero(MaxOf(counted)), AnyBelow(counted, UnstableThreshold))
  }

  /**
   * The first tokens up to the cell count are stored in file order, no-data
   * as 0; the cells past them stay 0.
   */
  lemma GridDataFacts(header: map<string, Num>, body: seq<byte>, total: real, length: nat)
    ensures var g := GridOf(header, body, total, length);
      var read := Take(Tokens(body), Cap(total));
      && |read| == Min(|Tokens(body)|, Cap(total))
      && |g.data| == length
      && (forall k :: 0 <= k < |read| && k < length ==> g.data[k] == Stored(ParseFloat(Tokens(body)[k]), NoDataOf(header)))
      && (forall k :: |read| <= k < length ==> g.data[k] == Real(0.0))
  {
  }

  /** A no-data token is stored as 0. */
  lemma NoDataStoredAsZero(v: Num, noData: Num)
    requires IsNoData(v, noData)
    ensures Stored(v, noData) == Real(0.0) && !Counts(v, noData)
  {
  }

  /**
   * The minimum and the maximum bound every counted value and are 0 and 0
   * when no value counts.
   */
  lemma GridExtremesFacts(header: map<string, Num>, body: seq<byte>, total: real, length: nat)
    ensures var g := GridOf(header, body, total, length);
      var noData := NoDataOf(header);
      var read := Take(Tokens(body), Cap(total));
      && ((forall k :: 0 <= k < |read| ==> !Counts(ParseFloat(read[k]), noData)) ==> g.min == 0.0 && g.max == 0.0)
      && (forall k :: 0 <= k < |read| && Counts(ParseFloat(read[k]), noData) ==>
            g.min <= ParseFloat(read[k]).value <= g.max)
  {
    var noData := NoDataOf(header);
    var read := Take(Tokens(body), Cap(total));
    var counted := CountedValues(read, noData);
    CountedValuesFacts(read, noData);
    if counted != [] {
      assert counted[0] in counted;
    }
  }

  /** The negative-depth flag is set exactly when some counted value is below -0.1. */
  lemma GridNegativeDepthFacts(header: map<string, Num>, body: seq<byte>, total: real, length: nat)
    ensures var g := GridOf(header, body, total, length);
      var noData := NoDataOf(header);
      var read := Take(Tokens(body), Cap(total));
      g.hasNegativeDepth <==> exists k :: 0 <= k < |read| && Counts(ParseFloat(read[k]), noData) && ParseFloat(read[k]).value < UnstableThreshold
  {
    var noData := NoDataOf(header);
    var read := Take(Tokens(body), Cap(total));
    var counted := CountedValues(read, noData);
    CountedValuesFacts(read, noData);
    if AnyBelow(counted, UnstableThreshold) {
      var x :| x in counted && x < UnstableThreshold;
      var k :| 0 <= k < |read| && ParseFloat(read[k]) == Real(x);
    }
  }

  // ------------------------------------------------------------ the crawl

  /** `tokens` with `tok` taken as one more token when fewer than `cap` have been read. */
  lemma TakeStep(tokens: seq<string>, tok: string, cap: nat)
    ensures |tokens| < cap ==> Take(tokens + [tok], cap) == Take(tokens, cap) + [tok]
    ensures |tokens| >= cap ==> Take(tokens + [tok], cap) == Take(tokens, cap)
  {
    if |tokens| >= cap {
      assert (tokens + [tok])[..cap] == tokens[..cap];
    }
  }

  lemma CountedStep(tokens: seq<string>, tok: string, noData: Num)
    ensures CountedValues(tokens + [tok], noData) ==
      CountedValues(tokens, noData) + (if Counts(ParseFloat(tok), noData) then [ParseFloat(tok).value] else [])
  {
    assert (tokens + [tok])[..|tokens|] == tokens;
  }

  lemma StoredStep(tokens: seq<string>, tok: string, noData: Num)
    ensures StoredValues(tokens + [tok], noData) == StoredValues(tokens, noData) + [Stored(ParseFloat(tok), noData)]
  {
  }

  lemma MinStep(xs: seq<real>, x: real)
    ensures MinOf(xs + [x]) == if MinOf(xs).None? || x < MinOf(xs).value then Some(x) else MinOf(xs)
  {
    assert (xs + [x])[..|xs|] == xs;
  }

  lemma MaxStep(xs: seq<real>, x: real)
    ensures MaxOf(xs + [x]) == if MaxOf(xs).None? || x > MaxOf(xs).value then Some(x) else MaxOf(xs)
  {
    assert (xs + [x])[..|xs|] == xs;
  }

  lemma PaddedStep(vs: seq<Num>, v: Num, length: nat, data: seq<Num>, data': seq<Num>)
    requires data == Padded(vs, length)
    requires data' == if |vs| < length then data[|vs| := v] else data
    ensures data' == Padded(vs + [v], length)
  {
  }

  lemma ScanStep(bs: seq<byte>, b: byte)
    ensures Pending(bs + [b]) == if IsNumberByte(b) then Pending(bs) + [ToChar(b)] else []
    ensures Completed(bs + [b]) == if IsNumberByte(b) || Pending(bs) == [] then Completed(bs) else Completed(bs) + [Pending(bs)]
  {
    assert (bs + [b])[..|bs|] == bs;
  }

  /** The crawler's state after `read` tokens have been read: stored values, extremes and the flag. */
  ghost predicate CrawlState(data: seq<Num>, read: seq<string>, noData: Num, minV: Option<real>, maxV: Option<real>, negative: bool) {
    var counted := CountedValues(read, noData);
    && data == Padded(StoredValues(read, noData), |data|)
    && minV == MinOf(counted) && maxV == MaxOf(counted)
    && (negative <==> AnyBelow(counted, UnstableThreshold))
  }

  /** Lines 66-78 and 88-95: parse one token, store it at `valIndex` when the array has room, and update the statistics. */
  method Record(data: array<Num>, valIndex: nat, tok: string, noData: Num, minV: Option<real>, maxV: Option<real>, negative: bool, ghost read: seq<string>)
    returns (minV': Option<real>, maxV': Option<real>, negative': bool)
    requires |read| == valIndex
    requires CrawlState(data[..], read, noData, minV, maxV, negative)
    modifies data
    ensures CrawlState(data[..], read + [tok], noData, minV', maxV', negative')
  {
    ghost var counted := CountedValues(read, noData);
    ghost var counted' := CountedValues(read + [tok], noData);
    CountedStep(read, tok, noData);
    StoredStep(read, tok, noData);
    var val := ParseFloat(tok);
    minV', maxV', negative' := minV, maxV, negative;
    if IsNoData(val, noData) {
      assert counted' == counted + [];
      val := Real(0.0);
    } else if val.Real? {
      assert counted' == counted + [val.value];
      MinStep(counted, val.value);
      MaxStep(counted, val.value);
      if minV.None? || val.value < minV.value {
        minV' := Some(val.value);
      }
      if maxV.None? || val.value > maxV.value {
        maxV' := Some(val.value);
      }
      if val.value < UnstableThreshold {
        negative' := true;
      }
      AnyBelowStep(counted, val.value, UnstableThreshold);
    } else {
      assert counted' == counted + [];
    }
    assert counted + [] == counted;
    ghost var before := data[..];
    if valIndex < data.Length {
      data[valIndex] := val;
    }
    PaddedStep(StoredValues(read, noData), val, data.Length, before, data[..]);
  }

  lemma AnyBelowStep(xs: seq<real>, x: real, threshold: real)
    ensures AnyBelow(xs + [x], threshold) <==> AnyBelow(xs, threshold) || x < threshold
  {
    if AnyBelow(xs + [x], threshold) {
      var y :| y in xs + [x] && y < threshold;
    }
    assert x in xs + [x];
    forall y | y in xs
      ensures y in xs + [x]
    {
    }
  }

  /** What the crawler knows after the bytes `seen`: the pending number, the tokens read and the statistics. */
  ghost predicate CrawledUpTo(seen: seq<byte>, cap: nat, data: seq<Num>, noData: Num, currentNumStr: string, valIndex: nat,
                              read: seq<string>, minV: Option<real>, maxV: Option<real>, negative: bool) {
    && currentNumStr == Pending(seen)
    && read == Take(Completed(seen), cap)
    && valIndex == |read|
    && CrawlState(data, read, noData, minV, maxV, negative)
  }

  /** Lines 55-83: one byte of the body; a separator after a number reads that number while fewer than `totalCells` have been read. */
  method CrawlByte(data: array<Num>, body: seq<byte>, i: nat, totalCells: real, noData: Num, currentNumStr: string, valIndex: nat,
                   minV: Option<real>, maxV: Option<real>, negative: bool, ghost read: seq<string>)
    returns (currentNumStr': string, valIndex': nat, minV': Option<real>, maxV': Option<real>, negative': bool, ghost read': seq<string>)
    requires i < |body|
    requires CrawledUpTo(body[..i], Cap(totalCells), data[..], noData, currentNumStr, valIndex, read, minV, maxV, negative)
    modifies data
    ensures CrawledUpTo(body[..i + 1], Cap(totalCells), data[..], noData, currentNumStr', valIndex', read', minV', maxV', negative')
  {
    var b := body[i];
    ghost var seen := body[..i];
    PrefixGrows(body, i);
    ghost var cap := Cap(totalCells);
    currentNumStr', valIndex', minV', maxV', negative', read' := currentNumStr, valIndex, minV, maxV, negative, read;
    ScanStep(seen, b);
    if IsNumberByte(b) {
      currentNumStr' := currentNumStr + [ToChar(b)];
    } else if |currentNumStr| > 0 {
      TakeStep(Completed(seen), currentNumStr, cap);
      CapBounds(valIndex, totalCells);
      if (valIndex as real) < totalCells {
        minV', maxV', negative' := Record(data, valIndex, currentNumStr, noData, minV, maxV, negative, read);
        valIndex' := valIndex + 1;
        read' := read + [currentNumStr];
      }
      currentNumStr' := [];
    }
  }

  lemma CrawlStart(data: seq<Num>, cap: nat, noData: Num)
    requires forall k :: 0 <= k < |data| ==> data[k] == Real(0.0)
    ensures CrawledUpTo([], cap, data, noData, [], 0, [], None, None, false)
  {
    assert data == Padded(StoredValues([], noData), |data|);
  }

  lemma PrefixGrows(body: seq<byte>, i: nat)
    requires i < |body|
    ensures body[..i + 1] == body[..i] + [body[i]]
  {
  }

  /** Lines 54-96: crawl the body bytes, then take a number that runs up to the end of the buffer. */
  method CrawlBody(raw: seq<byte>, start: nat, totalCells: real, data: array<Num>, noData: Num)
    returns (minV: Option<real>, maxV: Option<real>, negative: bool)
    requires start <= |raw|
    requires forall k :: 0 <= k < data.Length ==> data[k] == Real(0.0)
    modifies data
    ensures CrawlState(data[..], Take(Tokens(raw[start..]), Cap(totalCells)), noData, minV, maxV, negative)
  {
    var currentNumStr, valIndex;
    ghost var read;
    currentNumStr, valIndex, minV, maxV, negative, read := CrawlBytes(raw[start..], totalCells, data, noData);
    minV, maxV, negative := CrawlTail(data, raw[start..], totalCells, noData, currentNumStr, valIndex, minV, maxV, negative, read);
  }

  /** Lines 54-84: the loop over the body bytes. */
  method CrawlBytes(body: seq<byte>, totalCells: real, data: array<Num>, noData: Num)
    returns (currentNumStr: string, valIndex: nat, minV: Option<real>, maxV: Option<real>, negative: bool, ghost read: seq<string>)
    requires forall k :: 0 <= k < data.Length ==> data[k] == Real(0.0)
    modifies data
    ensures CrawledUpTo(body, Cap(totalCells), data[..], noData, currentNumStr, valIndex, read, minV, maxV, negative)
  {
    minV, maxV, negative := None, None, false;
    valIndex := 0;
    currentNumStr := [];
    read := [];
    CrawlStart(data[..], Cap(totalCells), noData);
    assert body[..0] == [];
    var i := 0;
    while i < |body|
      invariant i <= |body|
      invariant CrawledUpTo(body[..i], Cap(totalCells), data[..], noData, currentNumStr, valIndex, read, minV, maxV, negative)
    {
      currentNumStr, valIndex, minV, maxV, negative, read :=
        CrawlByte(data, body, i, totalCells, noData, currentNumStr, valIndex, minV, maxV, negative, read);
      i := i + 1;
    }
    assert body[..i] == body;
  }

  /** Lines 86-96: a number that runs up to the end of the buffer is read too. */
  method CrawlTail(data: array<Num>, ghost seen: seq<byte>, totalCells: real, noData: Num, currentNumStr: string, valIndex: nat,
                   minV: Option<real>, maxV: Option<real>, negative: bool, ghost read: seq<string>)
    returns (minV': Option<real>, maxV': Option<real>, negative': bool)
    requires CrawledUpTo(seen, Cap(totalCells), data[..], noData, currentNumStr, valIndex, read, minV, maxV, negative)
    modifies data
    ensures CrawlState(data[..], Take(Tokens(seen), Cap(totalCells)), noData, minV', maxV', negative')
  {
    minV', maxV', negative' := minV, maxV, negative;
    ghost var cap := Cap(totalCells);
    ghost var done := Completed(seen);
    assert Tokens(seen) == done + (if currentNumStr == [] then [] else [currentNumStr]);
    TakeStep(done, currentNumStr, cap);
    CapBounds(valIndex, totalCells);
    if |currentNumStr| > 0 && (valIndex as real) < totalCells {
      assert |done| < cap;
      assert Take(Tokens(seen), cap) == read + [currentNumStr];
      minV', maxV', negative' := Record(data, valIndex, currentNumStr, noData, minV, maxV, negative, read);
    } else if |currentNumStr| > 0 {
      assert Take(Tokens(seen), cap) == read;
    } else {
      assert done + [] == done;
      assert Take(Tokens(seen), cap) == read;
    }
  }

  /** `header.ncols * header.nrows` */
  function CellCount(header: map<string, Num>): real
    requires HasGridSize(header)
  {
    header["ncols"].value * header["nrows"].value
  }

  /** What the body gives under a usable header: a RangeError for a negative cell count, else the grid. */
  function BodyOutcome(header: map<string, Num>, body: seq<byte>): Outcome
    requires HasGridSize(header)
  {
    var total := CellCount(header);
    var length := ArrayLength(total);
    if length.None? then Thrown("RangeError") else Parsed(GridOf(header, body, total, length.value))
  }

  /** Lines 37-107: allocate the zero-filled array, crawl the body and collect the result. */
  method ParseBody(raw: seq<byte>, headerEndIndex: nat, h: map<string, Num>) returns (out: Outcome)
    requires headerEndIndex <= |raw| && HasGridSize(h)
    ensures out == BodyOutcome(h, raw[headerEndIndex..])
  {
    var totalCells := h["ncols"].value * h["nrows"].value;
    var length := ArrayLength(totalCells);
    if length.None? {
      return Thrown("RangeError");
    }
    var data := new Num[length.value](_ => Real(0.0));
    var noData := if "nodata_value" in h then h["nodata_value"] else Real(DefaultNoData);
    var minV, maxV, negative := CrawlBody(raw, headerEndIndex, totalCells, data, noData);
    var min, max := 0.0, 0.0;
    if minV.Some? {
      min, max := minV.value, OrZero(maxV);
    }
    out := Parsed(Grid(h, data[..], min, max, negative));
  }

  /**
   * `parseAsync`: an empty buffer and a header of fewer than six lines are
   * refused, so is a header without a usable grid size; a negative cell
   * count throws; otherwise the body is crawled into a zero-filled array.
   */
  method ParseAsync(raw: seq<byte>) returns (out: Outcome)
    ensures |raw| == 0 ==> out == Invalid("Empty Buffer")
    ensures |raw| > 0 && Newlines(raw) < 6 ==> out == Invalid("Invalid Header: < 6 lines")
    ensures |raw| > 0 && Newlines(raw) >= 6 ==>
      var header := ParseHeader(Decode(raw[..HeaderEnd(raw)]));
      && (header.None? ==> out == Invalid("Invalid Header Content"))
      && (header.Some? ==> out == BodyOutcome(header.value, raw[HeaderEnd(raw)..]))
  {
    if |raw| == 0 {
      return Invalid("Empty Buffer");
    }
    var headerEndIndex, lineCount := ScanHeader(raw);
    if lineCount < 6 {
      return Invalid("Invalid Header: < 6 lines");
    }
    var header := ParseHeader(Decode(raw[..headerEndIndex]));
    if header.None? {
      return Invalid("Invalid Header Content");
    }
    out := ParseBody(raw, headerEndIndex, header.value);
  }
}
