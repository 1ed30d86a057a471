/** Ranges of int and hex symbols: texts as numbers, numbers as texts, and what
    happens to a value outside its range. */
module Ranges {
  import opened Options
  import opened Exprs
  import opened ConfText

  const MIN: int := -0x8000_0000_0000_0000
  const MAX: int := 0x7fff_ffff_ffff_ffff

  // ---------- From text ----------

  predicate IsSpace(c: char) {
    c == ' ' || '\t' <= c <= '\r'
  }

  predicate IsDigitOf(base: nat, c: char) {
    if base == 10 then IsDigit(c) else IsHexDigit(c)
  }

  function DigitValue(c: char): (v: int)
    requires IsHexDigit(c)
    ensures 0 <= v < 16
  {
    if IsDigit(c) then c as int - '0' as int
    else if c >= 'a' then c as int - 'a' as int + 10
    else c as int - 'A' as int + 10
  }

  /** The number that the leading digits of `s` continue `acc` to. */
  function Magnitude(base: nat, acc: nat, s: string): nat
    decreases |s|
  {
    if s == [] || !IsDigitOf(base, s[0]) then acc
    else Magnitude(base, acc * base + DigitValue(s[0]), s[1..])
  }

  function SkipSpaces(s: string): string {
    if s != [] && IsSpace(s[0]) then SkipSpaces(s[1..]) else s
  }

  function SkipPrefix(base: nat, s: string): string {
    if base == 16 && |s| >= 2 && s[0] == '0' && (s[1] == 'x' || s[1] == 'X') then s[2..] else s
  }

  function Saturate(v: int): (r: int)
    ensures MIN <= r <= MAX
  {
    if v < MIN then MIN else if v > MAX then MAX else v
  }

  /** The text as a number of 64 bits: blanks, a sign, digits; what does not fit
      is cut to the nearest number that does. */
  function ToNumber(base: nat, s: string): (v: int)
    ensures MIN <= v <= MAX
  {
    var t := SkipSpaces(s);
    if t != [] && t[0] == '-' then Saturate(0 - Magnitude(base, 0, SkipPrefix(base, t[1..])))
    else if t != [] && t[0] == '+' then Saturate(Magnitude(base, 0, SkipPrefix(base, t[1..])))
    else Saturate(Magnitude(base, 0, SkipPrefix(base, t)))
  }

  // ---------- To text ----------

  function DigitChar(d: nat): (c: char)
    requires d < 16
    ensures IsHexDigit(c) && DigitValue(c) == d && (d < 10 ==> IsDigit(c))
  {
    if d < 10 then '0' + d as char else 'a' + (d - 10) as char
  }

  function Digits(base: nat, n: nat): string
    requires base == 10 || base == 16
  {
    if n < base then [DigitChar(n)] else Digits(base, n / base) + [DigitChar(n % base)]
  }

  /** A signed number in decimal. */
  function Decimal(v: int): string {
    if v < 0 then "-" + Digits(10, -v) else Digits(10, v)
  }

  /** The number's 64 bits, taken as unsigned, in hexadecimal. */
  function Hexadecimal(v: int): string {
    "0x" + Digits(16, v % 0x1_0000_0000_0000_0000)
  }

  function Printed(base: nat, v: int): string {
    if base == 10 then Decimal(v) else Hexadecimal(v)
  }

  // ---------- There and back ----------

  lemma {:induction false} MagnitudeMore(base: nat, acc: nat, s: string, c: char)
    requires (base == 10 || base == 16) && IsDigitOf(base, c)
    requires forall i :: 0 <= i < |s| ==> IsDigitOf(base, s[i])
    ensures Magnitude(base, acc, s + [c]) == Magnitude(base, acc, s) * base + DigitValue(c)
    decreases |s|
  {
    if s == [] {
      assert ([] + [c])[1..] == [];
      assert Magnitude(base, acc * base + DigitValue(c), []) == acc * base + DigitValue(c);
    } else {
      assert (s + [c])[1..] == s[1..] + [c];
      MagnitudeMore(base, acc * base + DigitValue(s[0]), s[1..], c);
    }
  }

  /** Digits are read back as the number they were printed from. */
  lemma {:induction false} DigitsBack(base: nat, n: nat)
    requires base == 10 || base == 16
    ensures Magnitude(base, 0, Digits(base, n)) == n
    ensures forall i :: 0 <= i < |Digits(base, n)| ==> IsDigitOf(base, Digits(base, n)[i])
    ensures Digits(base, n) != [] && (Digits(base, n)[0] == '0' ==> |Digits(base, n)| == 1)
    decreases n
  {
    if n < base {
      assert [DigitChar(n)][1..] == [];
    } else {
      DigitsBack(base, n / base);
      MagnitudeMore(base, 0, Digits(base, n / base), DigitChar(n % base));
      FirstDigit(base, n);
    }
  }

  lemma {:induction false} FirstDigit(base: nat, n: nat)
    requires (base == 10 || base == 16) && n > 0
    ensures Digits(base, n) != [] && Digits(base, n)[0] != '0'
    decreases n
  {
    if n >= base {
      FirstDigit(base, n / base);
    }
  }

  lemma DigitsAreNoBlanks(base: nat, n: nat)
    requires base == 10 || base == 16
    ensures
      var d := Digits(base, n);
      SkipSpaces(d) == d && d[0] != '-' && d[0] != '+'
  {
    DigitsBack(base, n);
    assert IsDigitOf(base, Digits(base, n)[0]);
  }

  lemma SkipHexPrefix(s: string)
    ensures SkipSpaces("0x" + s) == "0x" + s && SkipPrefix(16, "0x" + s) == s
  {
    var t := "0x" + s;
    assert t[0] == '0' && t[1] == 'x' && t[2..] == s;
  }

  /** A printed number is read back unless it is negative and in hexadecimal. */
  lemma PrintedIsReadBack(base: nat, v: int)
    requires (base == 10 || base == 16) && MIN <= v <= MAX
    ensures ToNumber(base, Printed(base, v)) == v <==> base == 10 || v >= 0
  {
    if base == 10 {
      var n := if v < 0 then -v else v;
      DigitsBack(10, n);
      DigitsAreNoBlanks(10, n);
      if v < 0 {
        var t := Decimal(v);
        assert t[0] == '-' && t[1..] == Digits(10, n) && SkipSpaces(t) == t;
      }
    } else {
      var n := v % 0x1_0000_0000_0000_0000;
      DigitsBack(16, n);
      SkipHexPrefix(Digits(16, n));
      assert Hexadecimal(v)[0] == '0';
    }
  }

  function BaseOf(kind: SymKind): nat {
    if kind.Hex? then 16 else 10
  }

  predicate IsNumeric(kind: SymKind) {
    kind.Int? || kind.Hex?
  }

  /** A printed number is a text that symbols of the kind accept. */
  lemma PrintedIsValid(kind: SymKind, v: int)
    requires IsNumeric(kind)
    ensures StringValid(kind, Printed(BaseOf(kind), v))
  {
    if kind.Int? {
      var n := if v < 0 then -v else v;
      DigitsBack(10, n);
      DigitsAreNoBlanks(10, n);
      if v < 0 {
        assert Decimal(v)[1..] == Digits(10, n);
      }
    } else {
      var n := v % 0x1_0000_0000_0000_0000;
      DigitsBack(16, n);
      assert Hexadecimal(v)[2..] == Digits(16, n);
    }
  }

  // ---------- Ranges ----------

  /** A bound is the current text of a symbol, which may have a base of its own. */
  datatype Bound = Bound(kind: SymKind, text: string)

  datatype Range = Range(visible: bool, lo: Bound, hi: Bound)

  function BoundValue(base: nat, b: Bound): (v: int)
    ensures MIN <= v <= MAX
  {
    ToNumber(if b.kind.Int? then 10 else if b.kind.Hex? then 16 else base, b.text)
  }

  /** The first range that applies. */
  function ActiveRange(ranges: seq<Range>): Option<Range> {
    if ranges == [] then None
    else if ranges[0].visible then Some(ranges[0])
    else ActiveRange(ranges[1..])
  }

  function Clamp(v: int, lo: int, hi: int): int {
    if v < lo then lo else if v > hi then hi else v
  }

  /** The text of a symbol after its range is applied. */
  function Validated(kind: SymKind, text: string, ranges: seq<Range>): string {
    var range := ActiveRange(ranges);
    if !IsNumeric(kind) || range.None? then text
    else
      var base := BaseOf(kind);
      var v := ToNumber(base, text);
      var w := Clamp(v, BoundValue(base, range.value.lo), BoundValue(base, range.value.hi));
      if v == w then text else Printed(base, w)
  }

  /** A text that the user may enter. */
  predicate WithinRange(kind: SymKind, text: string, ranges: seq<Range>) {
    StringValid(kind, text)
    && (kind.Str? || IsNumeric(kind))
    && (IsNumeric(kind) ==>
         var range := ActiveRange(ranges);
         range.Some? ==>
           var base := BaseOf(kind);
           BoundValue(base, range.value.lo) <= ToNumber(base, text) <= BoundValue(base, range.value.hi))
  }

  /** The number after the range is applied is the number before, clamped,
      exactly unless a negative bound is put into hexadecimal text. */
  lemma ValidatedIsClamped(kind: SymKind, text: string, ranges: seq<Range>)
    requires IsNumeric(kind) && ActiveRange(ranges).Some?
    ensures
      var base, range := BaseOf(kind), ActiveRange(ranges).value;
      var lo, hi := BoundValue(base, range.lo), BoundValue(base, range.hi);
      var v := ToNumber(base, text);
      var w := Clamp(v, lo, hi);
      && (ToNumber(base, Validated(kind, text, ranges)) == w <==> kind.Int? || w >= 0 || w == v)
      && (lo <= hi ==> lo <= w <= hi && (lo <= v <= hi ==> w == v) && (v <= lo ==> w == lo) && (hi <= v ==> w == hi))
      && (w != v ==> StringValid(kind, Validated(kind, text, ranges)))
      && (w == v ==> Validated(kind, text, ranges) == text)
  {
    hide ToNumber, Printed, StringValid;
    var base, range := BaseOf(kind), ActiveRange(ranges).value;
    var w := Clamp(ToNumber(base, text), BoundValue(base, range.lo), BoundValue(base, range.hi));
    PrintedIsReadBack(base, w);
    PrintedIsValid(kind, w);
  }

  /** What the user may enter is left as it is. */
  lemma EnteredValueStands(kind: SymKind, text: string, ranges: seq<Range>)
    requires WithinRange(kind, text, ranges)
    ensures Validated(kind, text, ranges) == text
  {
    hide ToNumber, Printed, StringValid;
  }

  /** What a range makes of a value may be entered too, if the range is not
      empty and, in hexadecimal, not negative; so nothing changes the second
      time. */
  lemma ValidatedMayBeEntered(kind: SymKind, text: string, ranges: seq<Range>)
    requires IsNumeric(kind) && StringValid(kind, text)
    requires ActiveRange(ranges).Some? ==>
      var base, range := BaseOf(kind), ActiveRange(ranges).value;
      BoundValue(base, range.lo) <= BoundValue(base, range.hi) && (kind.Int? || BoundValue(base, range.lo) >= 0)
    ensures WithinRange(kind, Validated(kind, text, ranges), ranges)
    ensures Validated(kind, Validated(kind, text, ranges), ranges) == Validated(kind, text, ranges)
  {
    hide ToNumber, Printed, StringValid, Validated;
    if ActiveRange(ranges).Some? {
      ValidatedIsClamped(kind, text, ranges);
    } else {
      assert Validated(kind, text, ranges) == text by { NoRange(kind, text, ranges); }
    }
    EnteredValueStands(kind, Validated(kind, text, ranges), ranges);
  }

  lemma NoRange(kind: SymKind, text: string, ranges: seq<Range>)
    requires ActiveRange(ranges).None?
    ensures Validated(kind, text, ranges) == text
  {
  }

  /** A negative bound in hexadecimal is not what the symbol gets. */
  lemma NegativeHexBoundIsLost()
    ensures
      var ranges := [Range(true, Bound(Int, "-5"), Bound(Int, "-1"))];
      && Validated(Hex, "0x3", ranges) == Hexadecimal(-1)
      && ToNumber(16, Validated(Hex, "0x3", ranges)) != -1
  {
    ReadMinus('5');
    ReadMinus('1');
    ReadThree();
    PrintedIsReadBack(16, -1);
  }

  lemma ReadMinus(c: char)
    requires '1' <= c <= '9'
    ensures ToNumber(10, ['-', c]) == '0' as int - c as int
  {
    assert ['-', c][1..] == [c] && [c][1..] == [];
    assert Magnitude(10, 0, [c]) == DigitValue(c);
  }

  lemma ReadThree()
    ensures ToNumber(16, "0x3") == 3
  {
    assert "0x3"[2..] == "3" && "3"[1..] == [];
    assert Magnitude(16, 0, "3") == 3;
  }

  // ---------- The operations ----------

  /** The first range that applies, found property by property. */
  method GetRange(ranges: seq<Range>) returns (range: Option<Range>)
    ensures range == ActiveRange(ranges)
  {
    for i := 0 to |ranges|
      invariant ActiveRange(ranges) == ActiveRange(ranges[i..])
    {
      if ranges[i].visible {
        return Some(ranges[i]);
      }
      assert ranges[i..][1..] == ranges[i + 1..];
    }
    return None;
  }

  /** Which texts a symbol of a kind accepts, character by character. */
  method AcceptsString(kind: SymKind, str: string) returns (valid: bool)
    ensures valid <==> StringValid(kind, str)
  {
    hide ValidInt, ValidHex;
    match kind {
      case Int => valid := AcceptsInt(str);
      case Hex => valid := AcceptsHex(str);
      case Str => valid := true;
      case Boolean => valid := str != [] && str[0] in "yYmMnN";
      case TristateKind => valid := str != [] && str[0] in "yYmMnN";
      case _ => valid := false;
    }
  }

  method AcceptsInt(str: string) returns (valid: bool)
    ensures valid <==> ValidInt(str)
  {
    var i := if str != [] && str[0] == '-' then 1 else 0;
    if i == |str| || !IsDigit(str[i]) || (str[i] == '0' && i + 1 < |str|) {
      NotInt(str, i);
      return false;
    }
    valid := OnlyDigits(10, str, i);
  }

  method AcceptsHex(str: string) returns (valid: bool)
    ensures valid <==> ValidHex(str)
  {
    var i := if |str| >= 2 && str[0] == '0' && (str[1] == 'x' || str[1] == 'X') then 2 else 0;
    HexPart(str, i);
    if i == |str| {
      return false;
    }
    valid := OnlyDigits(16, str, i);
  }

  /** What is left of a text in hexadecimal has only such digits. */
  lemma HexPart(str: string, i: nat)
    requires i == if |str| >= 2 && str[0] == '0' && (str[1] == 'x' || str[1] == 'X') then 2 else 0
    ensures ValidHex(str) <==> i < |str| && forall k :: 0 <= k < |str[i..]| ==> IsDigitOf(16, str[i..][k])
  {
    if i == 0 { assert str[0..] == str; }
  }

  lemma NotInt(str: string, i: nat)
    requires i == if str != [] && str[0] == '-' then 1 else 0
    requires i == |str| || !IsDigit(str[i]) || (str[i] == '0' && i + 1 < |str|)
    ensures !ValidInt(str)
  {
    if i < |str| {
      assert str[i..][0] == str[i];
    }
  }

  method OnlyDigits(base: nat, str: string, from: nat) returns (yes: bool)
    requires from <= |str|
    ensures yes <==> forall k :: 0 <= k < |str[from..]| ==> IsDigitOf(base, str[from..][k])
  {
    for i := from to |str|
      invariant forall k :: from <= k < i ==> IsDigitOf(base, str[k])
    {
      if !IsDigitOf(base, str[i]) {
        assert str[from..][i - from] == str[i];
        return false;
      }
    }
    return true;
  }

  /** An int or hex symbol. */
  class NumberSymbol {
    const kind: SymKind
    var curr: string

    constructor (kind: SymKind, curr: string)
      ensures this.kind == kind && this.curr == curr
    {
      this.kind := kind;
      this.curr := curr;
    }

    /** Brings the current value into the range that applies. */
    method ValidateRange(ranges: seq<Range>)
      modifies this`curr
      ensures curr == Validated(kind, old(curr), ranges)
    {
      hide ToNumber, Printed;
      if !IsNumeric(kind) {
        return;
      }
      var base := BaseOf(kind);
      var range := GetRange(ranges);
      if range.None? {
        return;
      }
      var val := ToNumber(base, curr);
      var val2 := BoundValue(base, range.value.lo);
      if val >= val2 {
        val2 := BoundValue(base, range.value.hi);
        if val <= val2 {
          return;
        }
      }
      curr := Printed(base, val2);
    }
  }

  // ---------- Which range applies ----------

  /** The range that applies is the first visible one. */
  lemma {:induction false} ActiveIsFirst(ranges: seq<Range>)
    ensures ActiveRange(ranges).None? <==> forall i :: 0 <= i < |ranges| ==> !ranges[i].visible
    ensures forall r: Range :: ActiveRange(ranges) == Some(r) <==>
      exists i :: 0 <= i < |ranges| && ranges[i] == r && r.visible && forall j :: 0 <= j < i ==> !ranges[j].visible
  {
    if ranges != [] {
      var rest := ranges[1..];
      assert forall i :: 1 <= i < |ranges| ==> rest[i - 1] == ranges[i];
      ActiveIsFirst(rest);
      forall r: Range
        ensures ActiveRange(ranges) == Some(r) <==>
          exists i :: 0 <= i < |ranges| && ranges[i] == r && r.visible && forall j :: 0 <= j < i ==> !ranges[j].visible
      {
        if ranges[0].visible {
        } else if ActiveRange(rest) == Some(r) {
          var i :| 0 <= i < |rest| && rest[i] == r && r.visible && forall j :: 0 <= j < i ==> !rest[j].visible;
          assert ranges[i + 1] == r && forall j :: 0 <= j < i + 1 ==> !ranges[j].visible;
        } else if i :| 0 <= i < |ranges| && ranges[i] == r && r.visible && forall j :: 0 <= j < i ==> !ranges[j].visible {
          assert i > 0;
          assert rest[i - 1] == r;
        }
      }
    }
  }
}
