/** frontend/src/components/DifficultySelector.jsx: a 0..100 slider whose value is banded
    into four difficulty labels, each drawn in a fixed colour, plus a tooltip toggle.

    The component's two state variables are the fields of `DifficultySelector`; the
    `onDifficultyChange` callback is recorded as the list of values it has been given. */
module Difficulty {
  import opened Basics
  import opened Strings

  /** The `{ label, color }` record the component shows (`label` is a Dafny keyword, hence `text`). */
  datatype DifficultyInfo = DifficultyInfo(text: string, color: string)

  /** The four bands, lowest first. */
  datatype Level = Easy | Moderate | Challenging | Advanced

  /** The band boundaries: a value at or above a boundary belongs to the band above it. */
  const Thresholds: seq<int> := [25, 50, 75]

  function Rank(l: Level): (k: nat)
    ensures k < 4
  {
    match l
    case Easy => 0
    case Moderate => 1
    case Challenging => 2
    case Advanced => 3
  }

  /** How many boundaries `v` has reached. */
  function Reached(v: int, ts: seq<int>): (n: nat)
    ensures n <= |ts|
  {
    if ts == [] then 0 else (if ts[0] <= v then 1 else 0) + Reached(v, ts[1..])
  }

  /** The band of a value, read off the boundary table: the level whose rank is the number
      of boundaries the value has reached. */
  function Band(v: int): Level {
    var n := Reached(v, Thresholds);
    if n == 0 then Easy else if n == 1 then Moderate else if n == 2 then Challenging else Advanced
  }

  /** The label text of each level. */
  function Label(l: Level): string {
    match l
    case Easy => "Easy"
    case Moderate => "Moderate"
    case Challenging => "Challenging"
    case Advanced => "Advanced"
  }

  /** The colour class paired with each level. */
  function Color(l: Level): string {
    match l
    case Easy => "bg-green-500"
    case Moderate => "bg-blue-500"
    case Challenging => "bg-yellow-500"
    case Advanced => "bg-red-500"
  }

  /** `getDifficultyInfo`: the if-chain over the value. */
  function GetDifficultyInfo(value: int): DifficultyInfo {
    if value < 25 then DifficultyInfo("Easy", "bg-green-500")
    else if value < 50 then DifficultyInfo("Moderate", "bg-blue-500")
    else if value < 75 then DifficultyInfo("Challenging", "bg-yellow-500")
    else DifficultyInfo("Advanced", "bg-red-500")
  }

  /** The if-chain gives the band of the boundary table, with that band's label and colour. */
  lemma InfoIsBand(v: int)
    ensures GetDifficultyInfo(v) == DifficultyInfo(Label(Band(v)), Color(Band(v)))
  {
    ReachedTable(v);
  }

  /** The boundary count written out for the three boundaries. */
  lemma ReachedTable(v: int)
    ensures Reached(v, Thresholds) == (if 25 <= v then 1 else 0) + (if 50 <= v then 1 else 0) + (if 75 <= v then 1 else 0)
  {
    var ts := Thresholds;
    assert ts[1..] == [50, 75] && ts[1..][1..] == [75] && ts[1..][1..][1..] == [];
    assert Reached(v, [75]) == (if 75 <= v then 1 else 0) + Reached(v, []);
    assert Reached(v, [50, 75]) == (if 50 <= v then 1 else 0) + Reached(v, [75]);
  }

  /** Distinct levels have distinct labels and distinct colours, so each value gets exactly
      one label and the colour goes with it. */
  lemma LabelsAndColorsDistinct(l: Level, m: Level)
    ensures Label(l) == Label(m) <==> l == m
    ensures Color(l) == Color(m) <==> l == m
  {
  }

  /** The label never goes down as the value goes up. */
  lemma Monotone(v: int, w: int)
    requires v <= w
    ensures Rank(Band(v)) <= Rank(Band(w))
  {
    ReachedMonotone(v, w, Thresholds);
  }

  lemma {:induction false} ReachedMonotone(v: int, w: int, ts: seq<int>)
    requires v <= w
    ensures Reached(v, ts) <= Reached(w, ts)
  {
    if ts != [] {
      ReachedMonotone(v, w, ts[1..]);
    }
  }

  /** 25, 50 and 75 each open the band above. */
  lemma BoundariesGoUp()
    ensures GetDifficultyInfo(24).text == "Easy" && GetDifficultyInfo(25).text == "Moderate"
    ensures GetDifficultyInfo(49).text == "Moderate" && GetDifficultyInfo(50).text == "Challenging"
    ensures GetDifficultyInfo(74).text == "Challenging" && GetDifficultyInfo(75).text == "Advanced"
  {
  }

  /** The tooltip's ranges "0-25%", "26-50%", "51-75%" and "76-100%". */
  predicate InTooltipRange(v: int, l: Level) {
    match l
    case Easy => 0 <= v <= 25
    case Moderate => 26 <= v <= 50
    case Challenging => 51 <= v <= 75
    case Advanced => 76 <= v <= 100
  }

  /** On the slider's range the shown label matches the tooltip's range exactly when the value
      is not one of the boundaries 25, 50, 75; at those the tooltip names the band below. */
  lemma TooltipAgreement(v: int)
    requires 0 <= v <= 100
    ensures InTooltipRange(v, Band(v)) <==> v != 25 && v != 50 && v != 75
    ensures v == 25 || v == 50 || v == 75 ==> Rank(Band(v)) >= 1 && exists l :: InTooltipRange(v, l) && Rank(l) == Rank(Band(v)) - 1
  {
    ReachedTable(v);
    if v == 25 {
      assert InTooltipRange(v, Easy);
    } else if v == 50 {
      assert InTooltipRange(v, Moderate);
    } else if v == 75 {
      assert InTooltipRange(v, Challenging);
    }
  }

  // ----- The slider's string value and parseInt -----

  predicate IsDigit(c: char) {
    '0' <= c <= '9'
  }

  /** The number of leading decimal digits. */
  function DigitRun(s: string): (n: nat)
    ensures n <= |s|
    ensures forall i :: 0 <= i < n ==> IsDigit(s[i])
    ensures n < |s| ==> !IsDigit(s[n])
  {
    if s != [] && IsDigit(s[0]) then 1 + DigitRun(s[1..]) else 0
  }

  function DigitValue(c: char): (k: nat)
    requires IsDigit(c)
    ensures k < 10
  {
    c as int - '0' as int
  }

  /** The value of a string of decimal digits, most significant first. */
  function DigitsValue(s: string): nat
    requires forall i :: 0 <= i < |s| ==> IsDigit(s[i])
  {
    if s == [] then 0 else 10 * DigitsValue(s[..|s| - 1]) + DigitValue(s[|s| - 1])
  }

  /** `parseInt(s, 10)` on a string that starts with a digit: the value of its leading
      digits; `None` stands for `NaN`. */
  function ParseInt(s: string): (r: Option<nat>)
    ensures r.None? <==> s == [] || !IsDigit(s[0])
  {
    var n := DigitRun(s);
    if n == 0 then None else Some(DigitsValue(s[..n]))
  }

  /** Reading back the decimal text of a number gives the number. */
  lemma {:induction false} DigitsRoundTrip(n: nat)
    ensures DigitsValue(NatToString(n)) == n
  {
    var s := NatToString(n);
    if n >= 10 {
      DigitsRoundTrip(n / 10);
      assert s[..|s| - 1] == NatToString(n / 10);
    }
    var d := ['0', '1', '2', '3', '4', '5', '6', '7', '8', '9'];
    assert forall k :: 0 <= k < 10 ==> DigitValue(d[k]) == k;
  }

  /** `parseInt(String(n), 10) == n`. */
  lemma ParseIntRoundTrip(n: nat)
    ensures ParseInt(NatToString(n)) == Some(n)
  {
    var s := NatToString(n);
    DigitRunAll(s);
    assert s[..|s|] == s;
    DigitsRoundTrip(n);
  }

  lemma {:induction false} DigitRunAll(s: string)
    requires forall i :: 0 <= i < |s| ==> IsDigit(s[i])
    ensures DigitRun(s) == |s|
  {
    if s != [] {
      DigitRunAll(s[1..]);
    }
  }

  /** The component: `difficultyLevel` starts at 50 and `showTooltip` at false;
      `reported` lists the values handed to `onDifficultyChange`, oldest first. */
  class DifficultySelector {
    var difficultyLevel: int
    var showTooltip: bool
    var reported: seq<int>

    /** The level stays on the slider's range, and so does every reported value. */
    predicate Valid()
      reads this
    {
      && 0 <= difficultyLevel <= 100
      && forall i :: 0 <= i < |reported| ==> 0 <= reported[i] <= 100
    }

    constructor ()
      ensures Valid()
      ensures difficultyLevel == 50 && !showTooltip && reported == []
    {
      difficultyLevel, showTooltip, reported := 50, false, [];
    }

    /** What the component shows for its current level. */
    function Info(): DifficultyInfo
      reads this
    {
      GetDifficultyInfo(difficultyLevel)
    }

    /** `handleSliderChange`: the range input (min 0, max 100, step 1) delivers the position as
        its decimal text; the parsed number becomes the level and is passed to the callback. */
    method HandleSliderChange(position: nat)
      requires Valid() && position <= 100
      modifies this
      ensures Valid()
      ensures difficultyLevel == position && reported == old(reported) + [position]
      ensures showTooltip == old(showTooltip)
    {
      var targetValue := NatToString(position);
      var parsed := ParseInt(targetValue);
      ParseIntRoundTrip(position);
      var newValue := parsed.value;
      difficultyLevel := newValue;
      reported := reported + [newValue];
    }

    /** `toggleTooltip`. */
    method ToggleTooltip()
      modifies this
      ensures showTooltip == !old(showTooltip)
      ensures difficultyLevel == old(difficultyLevel) && reported == old(reported)
    {
      showTooltip := !showTooltip;
    }
  }

  /** The initial level 50 is shown as Challenging, in yellow. */
  lemma InitialInfo()
    ensures GetDifficultyInfo(50) == DifficultyInfo("Challenging", "bg-yellow-500")
  {
  }
}
