/** SAP WBS elements: classification of raw text into one of four kinds, and
    the `Display` text of each kind (src/api/wbs.rs). */
module ApiWbs {
  import W = Wrappers
  import opened Numerals

  /** A type of SAP WBS element. */
  datatype Wbs =
    | None
    | CostCenter(cc: U32)
    | Hd(job: string, id: U32)
    | Legacy(job: string, shipment: U32)

  /** `Failed to parse WBS <text>`. */
  datatype WbsError = Malformed(text: string)

  // ---------------------------------------------------------------------
  // The three unanchored patterns. `\d` is an ASCII digit here; `.` is any
  // character except '\n'.
  // ---------------------------------------------------------------------

  /** The fixed tail `-2-(2\d{3})` of the cost-center pattern, starting at k. */
  predicate CostCenterTailAt(s: string, k: nat) {
    k + 7 <= |s|
    && s[k] == '-' && s[k + 1] == '2' && s[k + 2] == '-'
    && s[k + 3] == '2' && IsDigit(s[k + 4]) && IsDigit(s[k + 5]) && IsDigit(s[k + 6])
  }

  /** `S-.*-2-(2\d{3})` matches at start i with its `.*` covering s[i+2..k]. */
  predicate CostCenterAt(s: string, i: nat, k: nat) {
    i + 2 <= k && k + 7 <= |s|
    && s[i] == 'S' && s[i + 1] == '-'
    && (forall j :: i + 2 <= j < k ==> s[j] != '\n')
    && CostCenterTailAt(s, k)
  }

  /** `D-(\d{7})-(\d{5})` matches at start i. */
  predicate HdAt(s: string, i: nat) {
    i + 15 <= |s|
    && s[i] == 'D' && s[i + 1] == '-' && AllDigits(s[i + 2..i + 9])
    && s[i + 9] == '-' && AllDigits(s[i + 10..i + 15])
  }

  /** `S-(\d{7})-2-(\d{2})` matches at start i. */
  predicate LegacyAt(s: string, i: nat) {
    i + 14 <= |s|
    && s[i] == 'S' && s[i + 1] == '-' && AllDigits(s[i + 2..i + 9])
    && s[i + 9] == '-' && s[i + 10] == '2' && s[i + 11] == '-'
    && AllDigits(s[i + 12..i + 14])
  }

  ghost predicate HasCostCenter(s: string) {
    exists i: nat, k: nat :: CostCenterAt(s, i, k)
  }

  ghost predicate HasHd(s: string) {
    exists i: nat :: HdAt(s, i)
  }

  ghost predicate HasLegacy(s: string) {
    exists i: nat :: LegacyAt(s, i)
  }

  /** The first index at or after j holding '\n', or |s|. */
  function LineEnd(s: string, j: nat): (e: nat)
    requires j <= |s|
    ensures j <= e <= |s| && (e < |s| ==> s[e] == '\n')
    ensures forall x :: j <= x < e ==> s[x] != '\n'
    decreases |s| - j
  {
    if j == |s| || s[j] == '\n' then j else LineEnd(s, j + 1)
  }

  /** The largest k' in [lo, k] at which the cost-center tail starts: a greedy `.*`
      tries the longest span first and gives back one character at a time. */
  function LastTail(s: string, lo: nat, k: nat): (r: W.Option<nat>)
    ensures r.Some? ==> lo <= r.value <= k && CostCenterTailAt(s, r.value)
    ensures r.Some? ==> forall k': nat :: r.value < k' <= k ==> !CostCenterTailAt(s, k')
    ensures r.None? ==> forall k': nat :: lo <= k' <= k ==> !CostCenterTailAt(s, k')
    decreases k
  {
    if k < lo then W.None
    else if CostCenterTailAt(s, k) then W.Some(k)
    else if k == 0 then W.None
    else LastTail(s, lo, k - 1)
  }

  /** Leftmost-first search for the cost-center pattern from position i: the
      leftmost start, and at that start the longest `.*`. Yields (start, tail). */
  function CostCenterSearch(s: string, i: nat): (r: W.Option<(nat, nat)>)
    ensures r.Some? ==> i <= r.value.0 && CostCenterAt(s, r.value.0, r.value.1)
    ensures r.Some? ==> forall i': nat, k': nat :: i <= i' < r.value.0 ==> !CostCenterAt(s, i', k')
    ensures r.Some? ==> forall k': nat :: r.value.1 < k' ==> !CostCenterAt(s, r.value.0, k')
    ensures r.None? ==> forall i': nat, k': nat :: i <= i' ==> !CostCenterAt(s, i', k')
    decreases |s| - i
  {
    if i + 2 > |s| then W.None
    else if s[i] == 'S' && s[i + 1] == '-' then
      var e := LineEnd(s, i + 2);
      var t := LastTail(s, i + 2, e);
      assert forall k': nat :: CostCenterAt(s, i, k') ==> k' <= e;
      if t.Some? then W.Some((i, t.value)) else CostCenterSearch(s, i + 1)
    else
      CostCenterSearch(s, i + 1)
  }

  /** The two fixed-width patterns. */
  datatype Shape = HdShape | LegacyShape

  predicate ShapeAt(shape: Shape, s: string, i: nat) {
    match shape
    case HdShape => HdAt(s, i)
    case LegacyShape => LegacyAt(s, i)
  }

  /** Leftmost start at or after i of a fixed-width pattern. */
  function FirstAt(shape: Shape, s: string, i: nat): (r: W.Option<nat>)
    ensures r.Some? ==> i <= r.value && ShapeAt(shape, s, r.value)
    ensures r.Some? ==> forall i': nat :: i <= i' < r.value ==> !ShapeAt(shape, s, i')
    ensures r.None? ==> forall i': nat :: i <= i' ==> !ShapeAt(shape, s, i')
    decreases |s| - i
  {
    if i >= |s| then W.None
    else if ShapeAt(shape, s, i) then W.Some(i)
    else FirstAt(shape, s, i + 1)
  }

  /** The value of four ASCII digits starting with '2'. */
  lemma CostCenterDigits(d: string)
    requires |d| == 4 && AllDigits(d) && d[0] == '2'
    ensures 2000 <= DigitsValue(d) <= 2999
  {
    var d3, d2, d1 := d[..3], d[..2], d[..1];
    assert d3[..2] == d2 && d2[..1] == d1 && d1[..0] == [];
    assert DigitsValue(d1) == 2;
    assert 20 <= DigitsValue(d2) <= 29;
    assert 200 <= DigitsValue(d3) <= 299;
  }

  lemma Pow10Widths()
    ensures Pow10(1) == 10 && Pow10(2) == 100 && Pow10(4) == 10000 && Pow10(5) == 100000
  {
    assert Pow10(3) == 1000;
  }

  /** What the pattern shapes guarantee about a classified value. */
  predicate WellShaped(w: Wbs) {
    match w
    case None => true
    case CostCenter(cc) => 2000 <= cc <= 2999
    case Hd(job, id) => |job| == 7 && AllDigits(job) && id < 100000
    case Legacy(job, shipment) => |job| == 7 && AllDigits(job) && shipment < 100
  }

  /** `TryFrom<&str> for Wbs`: "" is no WBS; otherwise the cost-center pattern,
      then the HD pattern, then the legacy pattern, each searched anywhere in
      the text; the first that matches decides, and no match is an error. */
  function Parse(s: string): (r: W.Result<Wbs, WbsError>)
    ensures r == W.Ok(None) <==> s == []
    ensures r.Err? <==> s != [] && !HasCostCenter(s) && !HasHd(s) && !HasLegacy(s)
    ensures r.Err? ==> r.error == Malformed(s)
    ensures s != [] ==> (r.Ok? && r.value.CostCenter? <==> HasCostCenter(s))
    ensures s != [] ==> (r.Ok? && r.value.Hd? <==> !HasCostCenter(s) && HasHd(s))
    ensures s != [] ==> (r.Ok? && r.value.Legacy? <==> !HasCostCenter(s) && !HasHd(s) && HasLegacy(s))
    ensures r.Ok? ==> WellShaped(r.value)
  {
    if s == [] then W.Ok(None)
    else
      var cc := CostCenterSearch(s, 0);
      if cc.Some? then
        var k := cc.value.1;
        var digits := s[k + 3..k + 7];
        assert AllDigits(digits) && digits[0] == '2';
        CostCenterDigits(digits);
        W.Ok(CostCenter(DigitsValue(digits)))
      else
        Pow10Widths();
        var hd := FirstAt(HdShape, s, 0);
        if hd.Some? then
          var i := hd.value;
          W.Ok(Hd(s[i + 2..i + 9], DigitsValue(s[i + 10..i + 15])))
        else
          assert !HasHd(s) by {
            forall i: nat ensures !HdAt(s, i) { assert !ShapeAt(HdShape, s, i); }
          }
          var legacy := FirstAt(LegacyShape, s, 0);
          if legacy.Some? then
            var i := legacy.value;
            W.Ok(Legacy(s[i + 2..i + 9], DigitsValue(s[i + 12..i + 14])))
          else
            assert !HasLegacy(s) by {
              forall i: nat ensures !LegacyAt(s, i) { assert !ShapeAt(LegacyShape, s, i); }
            }
            W.Err(Malformed(s))
  }

  // ---------------------------------------------------------------------
  // Which match the classifier reads its captures from.
  // ---------------------------------------------------------------------

  /** (i, k) is the cost-center match a leftmost-first search reports: no match
      starts before i, and none at i has a longer `.*`. */
  ghost predicate ChosenCostCenter(s: string, i: nat, k: nat) {
    CostCenterAt(s, i, k)
    && (forall i': nat, k': nat :: i' < i ==> !CostCenterAt(s, i', k'))
    && (forall k': nat :: k < k' ==> !CostCenterAt(s, i, k'))
  }

  /** i is the leftmost start of a fixed-width pattern. */
  ghost predicate ChosenAt(shape: Shape, s: string, i: nat) {
    ShapeAt(shape, s, i) && forall i': nat :: i' < i ==> !ShapeAt(shape, s, i')
  }

  /** A cost-center value is the 4-digit group of the leftmost, longest match. */
  lemma ParseTakesChosenCostCenter(s: string, i: nat, k: nat)
    requires ChosenCostCenter(s, i, k)
    ensures AllDigits(s[k + 3..k + 7]) && 2000 <= DigitsValue(s[k + 3..k + 7]) <= 2999
    ensures Parse(s) == W.Ok(CostCenter(DigitsValue(s[k + 3..k + 7])))
  {
    CostCenterDigits(s[k + 3..k + 7]);
    var r := CostCenterSearch(s, 0);
    assert r.Some?;
    assert r.value.0 == i;
    assert r.value.1 == k;
  }

  /** An HD value holds the two groups of the leftmost HD match. */
  lemma ParseTakesChosenHd(s: string, i: nat)
    requires !HasCostCenter(s) && ChosenAt(HdShape, s, i)
    ensures DigitsValue(s[i + 10..i + 15]) < 100000
    ensures Parse(s) == W.Ok(Hd(s[i + 2..i + 9], DigitsValue(s[i + 10..i + 15])))
  {
    Pow10Widths();
    var r := FirstAt(HdShape, s, 0);
    assert r.Some?;
    assert r.value == i;
  }

  /** A legacy value holds the two groups of the leftmost legacy match. */
  lemma ParseTakesChosenLegacy(s: string, i: nat)
    requires !HasCostCenter(s) && !HasHd(s) && ChosenAt(LegacyShape, s, i)
    ensures DigitsValue(s[i + 12..i + 14]) < 100
    ensures Parse(s) == W.Ok(Legacy(s[i + 2..i + 9], DigitsValue(s[i + 12..i + 14])))
  {
    Pow10Widths();
    assert FirstAt(HdShape, s, 0).None?;
    var r := FirstAt(LegacyShape, s, 0);
    assert r.Some?;
    assert r.value == i;
  }

  // ---------------------------------------------------------------------
  // Display.
  // ---------------------------------------------------------------------

  /** r is `<letter>-<job>-<n in decimal, unpadded>`. */
  predicate PrefixedText(r: string, letter: char, job: string, n: nat) {
    |r| > |job| + 3 && r[0] == letter && r[1] == '-' && r[2..2 + |job|] == job
    && r[2 + |job|] == '-' && Decimal(r[3 + |job|..], n)
  }

  /** The text `<letter>-<job>-<n>` with n printed by `{}`. */
  lemma PrefixedTextOf(letter: char, job: string, n: nat)
    ensures PrefixedText([letter, '-'] + job + "-" + NatToString(n), letter, job, n)
  {
    var t := NatToString(n);
    var r := [letter, '-'] + job + "-" + t;
    NatToStringDecimal(n);
    assert r[2..2 + |job|] == job && r[3 + |job|..] == t;
  }

  /** `Display for Wbs`: "" for no WBS, the bare number of a cost center,
      `D-job-id` and `S-job-shipment` with the numbers unpadded. */
  function Format(w: Wbs): (r: string)
    ensures r == [] <==> w.None?
    ensures w.CostCenter? ==> Decimal(r, w.cc)
    ensures w.Hd? ==> PrefixedText(r, 'D', w.job, w.id)
    ensures w.Legacy? ==> PrefixedText(r, 'S', w.job, w.shipment)
  {
    match w
    case None => ""
    case CostCenter(cc) =>
      NatToStringDecimal(cc);
      NatToString(cc)
    case Hd(job, id) =>
      PrefixedTextOf('D', job, id);
      "D-" + job + "-" + NatToString(id)
    case Legacy(job, shipment) =>
      PrefixedTextOf('S', job, shipment);
      "S-" + job + "-" + NatToString(shipment)
  }

  /** An HD value whose id has exactly five digits survives Display then parse:
      for such an id the unpadded Display is the padded one. */
  lemma HdRoundTrip(job: string, id: U32)
    requires |job| == 7 && AllDigits(job) && 10000 <= id <= 99999
    ensures Parse(Format(Hd(job, id))) == W.Ok(Hd(job, id))
  {
    Pow10Widths();
    assert Pow10(4) == 10000;
    NatToStringPadded(id, 5);
    assert Format(Hd(job, id)) == FormatPadded(Hd(job, id));
    PaddedHdRoundTrip(job, id);
  }

  // ---------------------------------------------------------------------
  // Conversions.
  // ---------------------------------------------------------------------

  /** `into_hd_wbs`: an HD value is kept (the id is ignored), a legacy value
      becomes HD with its job and the given id, no WBS stays none; a cost
      center makes it panic. */
  function IntoHd(w: Wbs, id: U32): (r: Wbs)
    requires !w.CostCenter?
    ensures r.Hd? || r.None?
    ensures r.None? <==> w.None?
    ensures w.Hd? ==> r == w
    ensures w.Legacy? ==> r.job == w.job && r.id == id
    ensures WellShaped(w) && id < 100000 ==> WellShaped(r)
  {
    match w
    case Hd(_, _) => w
    case Legacy(job, _) => Hd(job, id)
    case None => None
  }

  /** Converting twice is converting once. */
  lemma IntoHdIdempotent(w: Wbs, a: U32, b: U32)
    requires !w.CostCenter?
    ensures IntoHd(IntoHd(w, a), b) == IntoHd(w, a)
  {
  }

  /** `set_id` takes the WBS by move, assigns the id of the moved value and
      returns nothing, so the assignment is lost: no value the caller can still
      see changes. Anything but an HD value makes it panic. */
  function SetId(w: Wbs, newId: U32): (callerSees: Wbs)
    requires w.Hd?
    ensures callerSees == w
  {
    w
  }

  // ---------------------------------------------------------------------
  // Worked cases.
  // ---------------------------------------------------------------------

  /** The digit groups the worked cases below capture, read one digit at a time. */
  lemma {:induction false} Digits2027(d: string)
    requires d == "2027"
    ensures AllDigits(d) && DigitsValue(d) == 2027
  {
    var d1, d2, d3 := d[..1], d[..2], d[..3];
    assert d3[..2] == d2 && d2[..1] == d1 && d1[..0] == [];
    assert DigitsValue(d1) == 2;
    assert DigitsValue(d2) == 20;
    assert DigitsValue(d3) == 202;
  }

  lemma {:induction false} Digits03(d: string)
    requires d == "03"
    ensures AllDigits(d) && DigitsValue(d) == 3
  {
    var d1 := d[..1];
    assert d1[..0] == [];
    assert DigitsValue(d1) == 0;
  }

  lemma {:induction false} Digits00042(d: string)
    requires d == "00042"
    ensures AllDigits(d) && DigitsValue(d) == 42
  {
    var d1, d2, d3, d4 := d[..1], d[..2], d[..3], d[..4];
    assert d4[..3] == d3 && d3[..2] == d2 && d2[..1] == d1 && d1[..0] == [];
    assert DigitsValue(d1) == 0;
    assert DigitsValue(d2) == 0;
    assert DigitsValue(d3) == 0;
    assert DigitsValue(d4) == 4;
  }

  /** The shapes overlap: this text also holds a legacy match, but the
      cost-center pattern is tried first and wins. */
  lemma {:induction false} CostCenterBeforeLegacy(s: string)
    requires s == "S-1234567-2-2027"
    ensures LegacyAt(s, 0)
    ensures Parse(s) == W.Ok(CostCenter(2027))
  {
    assert ChosenCostCenter(s, 0, 9) by {
      assert forall j :: 2 <= j < 9 ==> s[j] != '\n';
      assert CostCenterTailAt(s, 9);
      assert CostCenterAt(s, 0, 9);
    }
    ParseTakesChosenCostCenter(s, 0, 9);
    assert s[12..16] == "2027";
    Digits2027(s[12..16]);
    assert s[2..9] == "1234567" && s[12..14] == "20";
  }

  /** A legacy text with a 2-digit shipment group. */
  lemma {:induction false} LegacyExample(s: string)
    requires s == "S-1234567-2-03"
    ensures Parse(s) == W.Ok(Legacy("1234567", 3))
  {
    assert !HasCostCenter(s) by {
      assert forall j :: 2 <= j < 9 ==> s[j] != '-';
    }
    assert ChosenAt(LegacyShape, s, 0) by {
      assert s[2..9] == "1234567" && s[12..14] == "03";
    }
    ParseTakesChosenLegacy(s, 0);
    assert s[2..9] == "1234567" && s[12..14] == "03";
    Digits03(s[12..14]);
  }

  /** The two groups of the HD worked case. */
  lemma {:induction false} HdExampleGroups(s: string)
    requires s == "D-1234567-00042"
    ensures s[2..9] == "1234567" && s[10..15] == "00042"
  {
  }

  /** An HD text; the leading zeros of the id are not kept. */
  lemma {:induction false} HdExample(s: string)
    requires s == "D-1234567-00042"
    ensures Parse(s) == W.Ok(Hd("1234567", 42))
  {
    assert !HasCostCenter(s) by {
      assert forall j :: 0 <= j < |s| ==> s[j] != 'S';
    }
    HdExampleGroups(s);
    Digits00042(s[10..15]);
    assert ChosenAt(HdShape, s, 0);
    ParseTakesChosenHd(s, 0);
  }

  /** Display of an HD value prints the id without padding. */
  lemma {:induction false} HdDisplayExample(job: string)
    requires job == "1234567"
    ensures Format(Hd(job, 42)) == "D-1234567-42"
  {
    assert NatToString(4) == "4";
    assert NatToString(42) == "42";
  }

  /** Display of a legacy value drops the "-2" group and the padding. */
  lemma {:induction false} LegacyDisplayExample(job: string)
    requires job == "1234567"
    ensures Format(Legacy(job, 3)) == "S-1234567-3"
  {
    assert NatToString(3) == "3";
  }

  /** Display of a cost center is the bare number. */
  lemma CostCenterDisplayExample(cc: U32)
    requires cc == 2027
    ensures Format(CostCenter(cc)) == "2027"
  {
    assert NatToString(2) == "2";
    assert NatToString(20) == "20";
    assert NatToString(202) == "202";
    assert NatToString(2027) == "2027";
  }

  /** The bare number a cost center prints as is never itself a WBS. */
  lemma {:induction false} CostCenterDisplayDoesNotParse(cc: U32)
    ensures Parse(Format(CostCenter(cc))).Err?
  {
    var s := Format(CostCenter(cc));
    assert forall j :: 0 <= j < |s| ==> s[j] != 'S' && s[j] != 'D';
  }

  // ---------------------------------------------------------------------
  // Display as the WBS doc comment and the parser expect it.
  // ---------------------------------------------------------------------

  /** The legacy text Display writes is never a WBS the parser accepts: its
      only '-' are at 1 and after the job, and a digit follows the second. */
  lemma {:induction false} LegacyDisplayDoesNotParse(job: string, shipment: U32)
    requires |job| == 7 && AllDigits(job)
    ensures Parse(Format(Legacy(job, shipment))).Err?
  {
    var s := Format(Legacy(job, shipment));
    var digits := NatToString(shipment);
    assert s == "S-" + job + "-" + digits;
    assert forall j :: 2 <= j < 9 ==> s[j] == job[j - 2] && s[j] != '-';
    assert forall j :: 10 <= j < |s| ==> s[j] == digits[j - 10] && IsDigit(s[j]);
    assert !HasCostCenter(s);
  }

  /** The HD text Display writes for an id below 10000 is never a WBS the
      parser accepts: it is too short for the HD pattern. */
  lemma {:induction false} ShortHdDisplayDoesNotParse(job: string, id: U32)
    requires |job| == 7 && AllDigits(job) && id < 10000
    ensures Parse(Format(Hd(job, id))).Err?
  {
    assert Pow10(4) == 10000;
    NatToStringWithin(id, 4);
    var s := Format(Hd(job, id));
    var digits := NatToString(id);
    assert s == "D-" + job + "-" + digits;
    assert |s| < 15;
    assert forall j :: 2 <= j < 9 ==> s[j] == job[j - 2];
    assert forall j :: 10 <= j < |s| ==> s[j] == digits[j - 10];
    assert forall j :: 0 <= j < |s| ==> s[j] != 'S';
    assert !HasCostCenter(s);
  }

  /** Rust's `{:0w}`: at least w digits, zero-padded on the left. */
  function ZeroPadded(n: nat, w: nat): (r: string)
    ensures AllDigits(r) && DigitsValue(r) == n
    ensures n < Pow10(w) ==> |r| == w
  {
    if n < Pow10(w) then
      PaddedDigitsValue(n, w);
      PaddedDigits(n, w)
    else
      NatToStringValue(n);
      NatToString(n)
  }

  /** Display with the widths the patterns require: the HD id as
      `{:05}`, and legacy as the documented `S-{job}-2-{shipment:02}`. */
  function FormatPadded(w: Wbs): (r: string)
    ensures r == [] <==> w.None?
  {
    match w
    case None => ""
    case CostCenter(cc) => NatToString(cc)
    case Hd(job, id) => "D-" + job + "-" + ZeroPadded(id, 5)
    case Legacy(job, shipment) => "S-" + job + "-2-" + ZeroPadded(shipment, 2)
  }

  /** Every HD value the parser can produce survives the padded Display. */
  lemma PaddedHdRoundTrip(job: string, id: U32)
    requires |job| == 7 && AllDigits(job) && id < 100000
    ensures Parse(FormatPadded(Hd(job, id))) == W.Ok(Hd(job, id))
  {
    Pow10Widths();
    var digits := ZeroPadded(id, 5);
    var s := FormatPadded(Hd(job, id));
    assert s == "D-" + job + "-" + digits;
    assert |s| == 15;
    assert forall j :: 0 <= j < |s| ==> s[j] != 'S' by {
      forall j | 0 <= j < |s| ensures s[j] != 'S' {
        if 2 <= j < 9 { assert s[j] == job[j - 2]; }
        else if 10 <= j { assert s[j] == digits[j - 10]; }
      }
    }
    assert !HasCostCenter(s);
    assert s[2..9] == job && s[10..15] == digits;
    assert ChosenAt(HdShape, s, 0);
    ParseTakesChosenHd(s, 0);
  }

  /** Every legacy value the parser can produce survives the padded Display. */
  lemma PaddedLegacyRoundTrip(job: string, shipment: U32)
    requires |job| == 7 && AllDigits(job) && shipment < 100
    ensures Parse(FormatPadded(Legacy(job, shipment))) == W.Ok(Legacy(job, shipment))
  {
    Pow10Widths();
    var digits := ZeroPadded(shipment, 2);
    var s := FormatPadded(Legacy(job, shipment));
    assert s == "S-" + job + "-2-" + digits;
    assert |s| == 14;
    assert s[2..9] == job && s[12..14] == digits;
    assert forall j :: 2 <= j < 9 ==> s[j] == job[j - 2] && s[j] != '-';
    assert !HasCostCenter(s);
    assert !HasHd(s);
    assert ChosenAt(LegacyShape, s, 0);
    ParseTakesChosenLegacy(s, 0);
  }
}
