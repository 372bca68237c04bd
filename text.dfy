/**
 * The string primitives of JavaScript that the status line is built from: decimal
 * rendering of an integer in a template literal, joining texts with a separator,
 * `String.prototype.trim` and `String.prototype.lastIndexOf`.
 */
module Text {

  // ---------------------------------------------------------------------------
  // Decimal numbers, as `${n}` renders a non-negative integer

  predicate IsDigit(c: char) {
    '0' <= c <= '9'
  }

  predicate AllDigits(s: string) {
    forall i :: 0 <= i < |s| ==> IsDigit(s[i])
  }

  function DigitChar(d: nat): (c: char)
    requires d < 10
    ensures IsDigit(c)
  {
    ('0' as int + d) as char
  }

  function DigitValue(c: char): (d: nat)
    requires IsDigit(c)
    ensures d < 10
  {
    c as int - '0' as int
  }

  /** The shortest decimal numeral of `n`: digits only, no leading zero. */
  function Decimal(n: nat): (s: string)
    ensures |s| >= 1
    ensures AllDigits(s)
    ensures (s[0] == '0') == (n == 0)
    ensures s[0] == '0' ==> |s| == 1
    decreases n
  {
    if n < 10 then [DigitChar(n)] else Decimal(n / 10) + [DigitChar(n % 10)]
  }

  /** The number a string of digits denotes (the reading of a numeral). */
  function DecimalValue(s: string): nat
    requires AllDigits(s)
    decreases |s|
  {
    if |s| == 0 then 0 else DecimalValue(s[..|s| - 1]) * 10 + DigitValue(s[|s| - 1])
  }

  /** Reading back the numeral of `n` gives `n`. */
  lemma {:induction false} DecimalRoundTrip(n: nat)
    ensures DecimalValue(Decimal(n)) == n
    decreases n
  {
    var s := Decimal(n);
    if n < 10 {
      assert s[..0] == [];
    } else {
      DecimalRoundTrip(n / 10);
      assert s[..|s| - 1] == Decimal(n / 10);
    }
  }

  /** Different numbers have different numerals. */
  lemma DecimalInjective(m: nat, n: nat)
    requires Decimal(m) == Decimal(n)
    ensures m == n
  {
    DecimalRoundTrip(m);
    DecimalRoundTrip(n);
  }

  // ---------------------------------------------------------------------------
  // Joining texts with a separator

  /** `parts` with `sep` between each two neighbours. */
  function Join(parts: seq<string>, sep: string): string
    decreases |parts|
  {
    if |parts| == 0 then ""
    else if |parts| == 1 then parts[0]
    else Join(parts[..|parts| - 1], sep) + sep + parts[|parts| - 1]
  }

  predicate NoneEmpty(parts: seq<string>) {
    forall i :: 0 <= i < |parts| ==> parts[i] != ""
  }

  /** Appending a part extends the joined text by the separator and that part. */
  lemma JoinSnoc(parts: seq<string>, p: string, sep: string)
    ensures Join(parts + [p], sep) == if parts == [] then p else Join(parts, sep) + sep + p
  {
    assert (parts + [p])[..|parts|] == parts;
  }

  /** A join of non-empty parts begins with the first part and ends with the last. */
  lemma {:induction false} JoinEnds(parts: seq<string>, sep: string)
    requires parts != []
    ensures |Join(parts, sep)| >= |parts[0]| && |Join(parts, sep)| >= |parts[|parts| - 1]|
    ensures Join(parts, sep)[..|parts[0]|] == parts[0]
    ensures Join(parts, sep)[|Join(parts, sep)| - |parts[|parts| - 1]|..] == parts[|parts| - 1]
    decreases |parts|
  {
    if |parts| > 1 {
      var init := parts[..|parts| - 1];
      JoinEnds(init, sep);
      assert init[0] == parts[0];
      var j := Join(init, sep);
      assert Join(parts, sep) == j + sep + parts[|parts| - 1];
      assert (j + sep + parts[|parts| - 1])[..|parts[0]|] == j[..|parts[0]|];
    }
  }

  /** A join of non-empty parts is empty exactly when there are no parts. */
  lemma JoinEmptyIff(parts: seq<string>, sep: string)
    requires NoneEmpty(parts)
    ensures Join(parts, sep) == "" <==> parts == []
  {
    if parts != [] {
      JoinEnds(parts, sep);
    }
  }

  // ---------------------------------------------------------------------------
  // String.prototype.trim

  /**
   * The characters `trim` removes: the WhiteSpace and LineTerminator code points of
   * ECMAScript (tab, vertical tab, form feed, space, no-break space, byte order mark,
   * the Unicode space separators, line feed, carriage return, line and paragraph separator).
   */
  predicate IsJsSpace(c: char) {
    var n := c as int;
    || n == 0x09 || n == 0x0A || n == 0x0B || n == 0x0C || n == 0x0D
    || n == 0x20 || n == 0xA0 || n == 0x1680
    || (0x2000 <= n <= 0x200A)
    || n == 0x2028 || n == 0x2029 || n == 0x202F || n == 0x205F
    || n == 0x3000 || n == 0xFEFF
  }

  predicate AllSpace(s: string) {
    forall i :: 0 <= i < |s| ==> IsJsSpace(s[i])
  }

  /** Neither begins nor ends with white space. */
  predicate Trimmed(s: string) {
    s == [] || (!IsJsSpace(s[0]) && !IsJsSpace(s[|s| - 1]))
  }

  /** `r` sits in `s` at `lead`, with only white space before and after it. */
  predicate SpacedAround(s: string, lead: nat, r: string) {
    && lead + |r| <= |s|
    && r == s[lead..lead + |r|]
    && (forall j :: 0 <= j < lead ==> IsJsSpace(s[j]))
    && (forall j :: lead + |r| <= j < |s| ==> IsJsSpace(s[j]))
  }

  /** The end of the run of white space of `s` that starts at `i`. */
  function SpaceRunEnd(s: string, i: nat): (k: nat)
    requires i <= |s|
    ensures i <= k <= |s|
    ensures forall j :: i <= j < k ==> IsJsSpace(s[j])
    ensures k == |s| || !IsJsSpace(s[k])
    decreases |s| - i
  {
    if i < |s| && IsJsSpace(s[i]) then SpaceRunEnd(s, i + 1) else i
  }

  /** The start of the run of white space of `s` that ends at `i`, going back no further than `lo`. */
  function SpaceRunStart(s: string, lo: nat, i: nat): (k: nat)
    requires lo <= i <= |s|
    ensures lo <= k <= i
    ensures forall j :: k <= j < i ==> IsJsSpace(s[j])
    ensures k == lo || !IsJsSpace(s[k - 1])
    decreases i
  {
    if i > lo && IsJsSpace(s[i - 1]) then SpaceRunStart(s, lo, i - 1) else i
  }

  /**
   * `s.trim()`: the part of `s` between its leading and its trailing white space, which
   * neither begins nor ends with white space.
   */
  function Trim(s: string): (r: string)
    ensures SpacedAround(s, SpaceRunEnd(s, 0), r)
    ensures Trimmed(r)
  {
    var lead := SpaceRunEnd(s, 0);
    s[lead..SpaceRunStart(s, lead, |s|)]
  }

  /**
   * The trimmed text is determined by its shape: a text that neither begins nor ends with
   * white space and has only white space around it in `s` is `Trim(s)`.
   */
  lemma TrimUnique(s: string, lead: nat, r: string)
    requires SpacedAround(s, lead, r) && Trimmed(r)
    ensures Trim(s) == r
  {
    var a := SpaceRunEnd(s, 0);
    var b := SpaceRunStart(s, a, |s|);
    if r == [] {
      assert forall j :: 0 <= j < |s| ==> IsJsSpace(s[j]);
      assert a == |s|;
    } else {
      assert s[lead] == r[0];
      assert a == lead;
      assert s[lead + |r| - 1] == r[|r| - 1];
      assert b == lead + |r|;
    }
  }

  /** Trimming twice is trimming once. */
  lemma TrimIdempotent(s: string)
    ensures Trim(Trim(s)) == Trim(s)
  {
    var r := Trim(s);
    assert r == r[0..|r|];
    TrimUnique(r, 0, r);
  }

  // ---------------------------------------------------------------------------
  // String.prototype.lastIndexOf

  predicate OccursAt(s: string, p: string, i: int) {
    0 <= i && i + |p| <= |s| && s[i..i + |p|] == p
  }

  predicate StartsWith(s: string, p: string) {
    |p| <= |s| && s[..|p|] == p
  }

  /** The last position at or below `from` where `p` occurs in `s`, or -1. */
  function LastIndexFrom(s: string, p: string, from: int): (r: int)
    ensures r == -1 || 0 <= r <= from
    ensures r >= 0 ==> OccursAt(s, p, r)
    ensures forall j :: r < j <= from ==> !OccursAt(s, p, j)
    decreases from + 1
  {
    if from < 0 then -1
    else if OccursAt(s, p, from) then from
    else LastIndexFrom(s, p, from - 1)
  }

  /** The position of the last occurrence of `p` in `s`, or -1 when there is none. */
  function LastIndexOf(s: string, p: string): (r: int)
    ensures -1 <= r <= |s|
    ensures r >= 0 ==> OccursAt(s, p, r)
    ensures forall j :: r < j ==> !OccursAt(s, p, j)
    ensures r == -1 <==> forall j :: !OccursAt(s, p, j)
  {
    LastIndexFrom(s, p, |s|)
  }
}
