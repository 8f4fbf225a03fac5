/**
 * The JSON texts of RFC 8259: among the documents of the parser's dialect, those with the four blanks of
 * section 2, the numbers of section 6 and the strings of section 7. A \u escape of half a surrogate pair
 * is the one thing of that grammar left out: section 8.2 leaves open what it means.
 */
module JsonStrict {
  import opened Bytes
  import opened Json
  import opened JsonText
  import opened JsonNumber
  import opened JsonLiteral
  import opened JsonParse
  import opened JsonSyntax

  // -------------------------------------------------------------------- the grammar

  predicate StrictBlankByte(b: byte) {
    b == TAB || b == NL || b == CR || b == SPACE
  }

  predicate StrictBlank(t: bytes) {
    forall i :: 0 <= i < |t| ==> StrictBlankByte(t[i])
  }

  predicate Digits(t: bytes) {
    t != [] && forall i :: 0 <= i < |t| ==> IsDigit(t[i])
  }

  predicate SignPart(t: bytes) {
    t == [] || t == [MINUS]
  }

  /** Zero, or digits that do not start with a zero. */
  predicate IntPart(t: bytes) {
    Digits(t) && (|t| > 1 ==> t[0] != 48)
  }

  predicate FracPart(t: bytes) {
    t == [] || (t[0] == POINT && Digits(t[1..]))
  }

  predicate ExpPart(t: bytes) {
    t == [] ||
    (&& (t[0] == 69 || t[0] == 101)
     && (Digits(t[1..]) || (|t| > 1 && (t[1] == PLUS || t[1] == MINUS) && Digits(t[2..]))))
  }

  /** The parts of a number end at i, j, k and the end of t. */
  predicate Cut(t: bytes, i: nat, j: nat, k: nat) {
    i <= j <= k <= |t| && SignPart(t[..i]) && IntPart(t[i..j]) && FracPart(t[j..k]) && ExpPart(t[k..])
  }

  /** A number of section 6. */
  predicate RfcNumber(t: bytes) {
    exists i, j, k :: 0 <= i <= j <= k <= |t| && Cut(t, i, j, k)
  }

  /** A character of section 7: no control byte stands for itself. */
  predicate StrictUnit(u: Unit) {
    UnitOk(u) && (u.Plain? ==> u.b >= 32)
  }

  predicate StrictLiteral(us: seq<Unit>) {
    forall i :: 0 <= i < |us| ==> StrictUnit(us[i])
  }

  predicate Strict(v: Doc) {
    match v
    case DNumber(t) => RfcNumber(t)
    case DString(lit) => StrictLiteral(lit)
    case DArray(open, es) => StrictBlank(open) && StrictElems(es)
    case DObject(open, ms) => StrictBlank(open) && StrictMembers(ms)
    case _ => true
  }

  predicate StrictElems(es: seq<DElem>) {
    es == [] ||
    (StrictBlank(es[0].before) && StrictBlank(es[0].after) && Strict(es[0].doc) && StrictElems(es[1..]))
  }

  predicate StrictMembers(ms: seq<DMember>) {
    ms == [] || (StrictName(ms[0]) && Strict(ms[0].doc) && StrictMembers(ms[1..]))
  }

  predicate StrictName(m: DMember) {
    && StrictBlank(m.before) && StrictLiteral(m.key) && StrictBlank(m.colon) && StrictBlank(m.gap)
    && StrictBlank(m.after)
  }

  /** Every number has at most the 63 bytes the parser's buffer holds. */
  predicate Brief(v: Doc) {
    match v
    case DNumber(t) => |t| <= NUMBER_MAX
    case DArray(_, es) => BriefElems(es)
    case DObject(_, ms) => BriefMembers(ms)
    case _ => true
  }

  predicate BriefElems(es: seq<DElem>) {
    es == [] || (Brief(es[0].doc) && BriefElems(es[1..]))
  }

  predicate BriefMembers(ms: seq<DMember>) {
    ms == [] || (Brief(ms[0].doc) && BriefMembers(ms[1..]))
  }

  // ------------------------------------------------------- strtod reads every number

  /** The exponent that a part for it names. */
  function ExpValue(t: bytes): int
    requires ExpPart(t)
  {
    if t == [] then 0
    else if t[1] == MINUS then -(DigitsValue(t[2..]) as int)
    else if t[1] == PLUS then DigitsValue(t[2..])
    else DigitsValue(t[1..])
  }

  /** What a number means: its digits as one integer, scaled by the exponent less the digits behind the point. */
  function RfcValue(t: bytes, i: nat, j: nat, k: nat): real
    requires Cut(t, i, j, k)
  {
    var e := ExpValue(t[k..]);
    var value :=
      if j == k then DigitsValue(t[i..j]) as real * Pow10(e)
      else DigitsValue(t[i..j] + t[j + 1..k]) as real * Pow10(e - (k - j - 1));
    if i == 1 then -value else value
  }

  lemma {:induction false} RunTo(t: bytes, i: nat, j: nat)
    requires i <= j <= |t| && (forall k :: i <= k < j ==> IsDigit(t[k])) && (j < |t| ==> !IsDigit(t[j]))
    ensures DigitRun(t, i) == j - i
    decreases j - i
  {
    if i < j {
      RunTo(t, i + 1, j);
    }
  }

  lemma DigitsAt(t: bytes, i: nat, j: nat)
    requires i <= j <= |t| && Digits(t[i..j])
    ensures i < j && forall k :: i <= k < j ==> IsDigit(t[k])
  {
    forall k | i <= k < j
      ensures IsDigit(t[k])
    {
      assert t[k] == t[i..j][k - i];
    }
  }

  lemma FracReads(t: bytes, j: nat, k: nat)
    requires j <= k <= |t| && FracPart(t[j..k]) && ExpPart(t[k..])
    ensures FractionLength(t, j) == k - j && (j < |t| ==> !IsDigit(t[j]))
    ensures forall n :: j <= n < k ==> NumberByte(t[n])
  {
    assert k < |t| ==> t[k] == t[k..][0];
    if j < k {
      assert t[j] == t[j..k][0];
      assert t[j..k][1..] == t[j + 1..k];
      DigitsAt(t, j + 1, k);
      RunTo(t, j + 1, k);
    }
  }

  lemma ExpReads(t: bytes, k: nat)
    requires k <= |t| && ExpPart(t[k..])
    ensures ExponentLength(t, k) == |t| - k && ExponentValue(t, k) == ExpValue(t[k..])
    ensures forall n :: k <= n < |t| ==> NumberByte(t[n])
  {
    if k < |t| {
      var e := t[k..];
      assert t[k] == e[0] && (|e| > 1 ==> t[k + 1] == e[1]);
      var s := if Digits(e[1..]) then 0 else 1;
      assert e[1 + s..] == t[k + 1 + s..|t|];
      DigitsAt(t, k + 1 + s, |t|);
      assert Digits(e[1..]) ==> e[1] == e[1..][0] && IsDigit(e[1]);
      RunTo(t, k + 1 + s, |t|);
      assert SignLength(t, k + 1) == s;
    }
  }

  /** strtod reads a number of section 6 whole, and to what it means. */
  lemma RfcNumberReads(t: bytes, i: nat, j: nat, k: nat)
    requires Cut(t, i, j, k)
    ensures Strtod(t) == Read(RfcValue(t, i, j, k), |t|)
    ensures t != [] && StartsNumber(t[0]) && forall n :: 0 <= n < |t| ==> NumberByte(t[n])
  {
    hide Pow10, DigitsValue, ExponentLength, ExponentValue, FractionLength, DigitRun;
    DigitsAt(t, i, j);
    assert i == 1 ==> t[0] == t[..i][0];
    assert SignLength(t, 0) == i;
    FracReads(t, j, k);
    RunTo(t, i, j);
    ExpReads(t, k);
  }

  /** No digit follows a zero at the start. */
  lemma NoLeadingZero(t: bytes)
    requires RfcNumber(t)
    ensures |t| > 1 && t[0] == 48 ==> !IsDigit(t[1])
  {
    var i: nat, j: nat, k: nat :| 0 <= i <= j <= k <= |t| && Cut(t, i, j, k);
    DigitsAt(t, i, j);
    FracReads(t, j, k);
    assert i > 0 ==> t[0] == t[..i][0] == MINUS;
    assert i == 0 ==> t[0] == t[i..j][0];
  }

  /** A number of section 6 that fits the buffer is a number of the dialect. */
  lemma RfcNumberOk(t: bytes)
    requires RfcNumber(t) && |t| <= NUMBER_MAX
    ensures NumberOk(t)
  {
    hide Strtod, Cut;
    var i: nat, j: nat, k: nat :| 0 <= i <= j <= k <= |t| && Cut(t, i, j, k);
    RfcNumberReads(t, i, j, k);
  }

  // ----------------------------------------------------- JSON texts are of the dialect

  lemma StrictBlankOk(t: bytes)
    requires StrictBlank(t)
    ensures Blank(t)
  {
  }

  lemma StrictLiteralOk(us: seq<Unit>)
    requires StrictLiteral(us)
    ensures LiteralOk(us)
  {
  }

  lemma {:induction false} StrictOk(v: Doc)
    requires Strict(v) && Brief(v)
    ensures DocOk(v)
    decreases v, 1
  {
    hide RfcNumber, NumberOk, StrictLiteral, LiteralOk, StrictBlank, Blank;
    match v
    case DNumber(t) => RfcNumberOk(t);
    case DString(lit) => StrictLiteralOk(lit);
    case DArray(open, es) =>
      StrictBlankOk(open);
      StrictElemsOk(es);
    case DObject(open, ms) =>
      StrictBlankOk(open);
      StrictMembersOk(ms);
    case _ =>
  }

  lemma {:induction false} StrictElemsOk(es: seq<DElem>)
    requires StrictElems(es) && BriefElems(es)
    ensures ElemsOk(es)
    decreases es, 0
  {
    hide Strict, Brief, DocOk, StrictBlank, Blank;
    if es != [] {
      StrictBlankOk(es[0].before);
      StrictBlankOk(es[0].after);
      StrictOk(es[0].doc);
      StrictElemsOk(es[1..]);
    }
  }

  lemma {:induction false} StrictMembersOk(ms: seq<DMember>)
    requires StrictMembers(ms) && BriefMembers(ms)
    ensures MembersOk(ms)
    decreases ms, 0
  {
    hide Strict, Brief, DocOk, StrictName, NameOk;
    if ms != [] {
      StrictNameOk(ms[0]);
      StrictOk(ms[0].doc);
      StrictMembersOk(ms[1..]);
    }
  }

  lemma StrictNameOk(m: DMember)
    requires StrictName(m)
    ensures NameOk(m)
  {
    hide StrictLiteral, LiteralOk, StrictBlank, Blank;
    StrictBlankOk(m.before);
    StrictLiteralOk(m.key);
    StrictBlankOk(m.colon);
    StrictBlankOk(m.gap);
    StrictBlankOk(m.after);
  }

  /**
   * Every JSON text of RFC 8259 with numbers of at most 63 bytes, nested no deeper than there is room,
   * parses to its value, wherever it stands in a buffer and whatever follows it (a number must not run
   * into further number bytes).
   */
  lemma RfcParses(c: bytes, o: nat, v: Doc, room: nat)
    requires Strict(v) && Brief(v) && At(c, o, DocText(v)) && Ends(c, o + |DocText(v)|, v)
    ensures DocOk(v)
    ensures Height(DocValue(v)) <= room ==> ParseValue(c, o, room) == Ok(DocValue(v), o + |DocText(v)|)
  {
    hide Strict, Brief, ParseValue, DocText, DocValue, DocOk, Height, At;
    StrictOk(v);
    if Height(DocValue(v)) <= room {
      ValueParses(c, o, v, room);
    }
  }

  // ------------------------------------------------------------- the printer's numbers

  lemma {:induction false} DecimalLead(n: nat)
    ensures n > 0 ==> Decimal(n)[0] != 48
    ensures n < 10 ==> |Decimal(n)| == 1
  {
    if n >= 10 {
      DecimalLead(n / 10);
      DecimalDigits(n / 10);
    }
  }

  lemma IntTextStrict(n: int)
    ensures RfcNumber(IntText(n))
  {
    var a: nat := if n < 0 then -n else n;
    var i := if n < 0 then 1 else 0;
    var t := IntText(n);
    DecimalDigits(a);
    DecimalLead(a);
    assert t[i..|t|] == Decimal(a) && t[|t|..|t|] == [] && t[|t|..] == [];
    assert Cut(t, i, |t|, |t|);
  }
}
