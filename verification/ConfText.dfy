/** The lines of a configuration file: what is printed for a symbol, and what a
    line that is read means. */
module ConfText {
  import opened Options
  import opened Tristates
  import opened Exprs

  /** The prefix of all names in the file (empty, "CONFIG_", ...) is a parameter
      called `pre` throughout. */
  const NOT_SET := "is not set"

  // ---------- Texts that a symbol accepts ----------

  predicate IsDigit(c: char) {
    '0' <= c <= '9'
  }

  predicate IsHexDigit(c: char) {
    IsDigit(c) || 'a' <= c <= 'f' || 'A' <= c <= 'F'
  }

  predicate AllDigits(s: string) {
    forall i :: 0 <= i < |s| ==> IsDigit(s[i])
  }

  predicate AllHexDigits(s: string) {
    forall i :: 0 <= i < |s| ==> IsHexDigit(s[i])
  }

  /** A decimal number without a superfluous leading zero. */
  predicate ValidInt(s: string) {
    var d := if s != [] && s[0] == '-' then s[1..] else s;
    d != [] && AllDigits(d) && (d[0] == '0' ==> |d| == 1)
  }

  predicate ValidHex(s: string) {
    var d := if |s| >= 2 && s[0] == '0' && (s[1] == 'x' || s[1] == 'X') then s[2..] else s;
    d != [] && AllHexDigits(d)
  }

  predicate StringValid(kind: SymKind, s: string) {
    match kind
    case Str => true
    case Int => ValidInt(s)
    case Hex => ValidHex(s)
    case Boolean => s != [] && s[0] in "yYmMnN"
    case TristateKind => s != [] && s[0] in "yYmMnN"
    case _ => false
  }

  // ---------- Escaping ----------

  predicate Special(c: char) {
    c == '"' || c == '\\'
  }

  /** Quotes and backslashes preceded by a backslash. */
  function EscapeBody(s: string): string {
    if s == [] then []
    else if Special(s[0]) then ['\\', s[0]] + EscapeBody(s[1..])
    else [s[0]] + EscapeBody(s[1..])
  }

  function Escaped(s: string): string {
    "\"" + EscapeBody(s) + "\""
  }

  function CountSpecial(s: string): nat {
    if s == [] then 0 else (if Special(s[0]) then 1 else 0) + CountSpecial(s[1..])
  }

  /** The text up to the closing quote, without the escaping backslashes; none
      if there is no closing quote. */
  function Unescaped(s: string): Option<string> {
    if s == [] then None
    else if s[0] == '"' then Some([])
    else if s[0] == '\\' then
      if |s| == 1 then None
      else
        var r := Unescaped(s[2..]);
        if r.None? then None else Some([s[1]] + r.value)
    else
      var r := Unescaped(s[1..]);
      if r.None? then None else Some([s[0]] + r.value)
  }

  lemma UnescapeSpecial(c: char, tail: string)
    requires Unescaped(tail).Some?
    ensures Unescaped(['\\', c] + tail) == Some([c] + Unescaped(tail).value)
  {
    assert (['\\', c] + tail)[2..] == tail;
  }

  lemma UnescapePlain(c: char, tail: string)
    requires Unescaped(tail).Some? && !Special(c)
    ensures Unescaped([c] + tail) == Some([c] + Unescaped(tail).value)
  {
    assert ([c] + tail)[1..] == tail;
  }

  /** Unescaping undoes escaping, whatever follows. */
  lemma {:induction false} UnescapeEscape(s: string, rest: string)
    ensures Unescaped(EscapeBody(s) + "\"" + rest) == Some(s)
  {
    hide Unescaped;
    if s == [] {
      UnescapeNothing(rest);
      assert EscapeBody(s) + "\"" + rest == "\"" + rest;
    } else {
      UnescapeEscape(s[1..], rest);
      assert [s[0]] + s[1..] == s;
      var tail := EscapeBody(s[1..]) + "\"" + rest;
      if Special(s[0]) {
        UnescapeSpecial(s[0], tail);
        assert EscapeBody(s) + "\"" + rest == ['\\', s[0]] + tail;
      } else {
        UnescapePlain(s[0], tail);
        assert EscapeBody(s) + "\"" + rest == [s[0]] + tail;
      }
    }
  }

  lemma UnescapeNothing(rest: string)
    ensures Unescaped("\"" + rest) == Some([])
  {
  }

  // ---------- Exactly what is escaped ----------

  /** The places before `k` that hold a quote or a backslash. */
  ghost function Marks(s: string, k: nat): set<nat>
    requires k <= |s|
  {
    set j: nat | j < k && (s[j] == '"' || s[j] == '\\')
  }

  /** `t` is `s` with one backslash before each quote and each backslash, and nothing
      else: the place of every character of `t` is given. */
  ghost predicate IsEscaped(s: string, t: string) {
    && |t| == |s| + |Marks(s, |s|)|
    && forall i: nat :: i < |s| ==> StandsAt(s, t, i)
  }

  lemma MarksNext(s: string, k: nat)
    requires k < |s|
    ensures |Marks(s, k + 1)| == |Marks(s, k)| + if s[k] == '"' || s[k] == '\\' then 1 else 0
  {
    assert Marks(s, k + 1) == if s[k] == '"' || s[k] == '\\' then Marks(s, k) + {k} else Marks(s, k);
  }

  lemma {:induction false} EscapeBodyParts(a: string, b: string)
    ensures EscapeBody(a + b) == EscapeBody(a) + EscapeBody(b)
  {
    if a == [] {
      assert a + b == b;
    } else {
      EscapeBodyParts(a[1..], b);
      assert (a + b)[1..] == a[1..] + b;
      var head := if Special(a[0]) then ['\\', a[0]] else [a[0]];
      assert EscapeBody(a) == head + EscapeBody(a[1..]);
      assert EscapeBody(a + b) == head + EscapeBody(a[1..] + b);
      hide EscapeBody, Special;
      assert head + (EscapeBody(a[1..]) + EscapeBody(b)) == (head + EscapeBody(a[1..])) + EscapeBody(b);
    }
  }

  lemma EscapeBodyFirst(s: string, k: nat)
    requires k < |s|
    ensures EscapeBody(s[..k + 1]) == EscapeBody(s[..k]) + if s[k] == '"' || s[k] == '\\' then ['\\', s[k]] else [s[k]]
  {
    EscapeBodyParts(s[..k], [s[k]]);
    assert s[..k + 1] == s[..k] + [s[k]];
    assert [s[k]][1..] == [] && EscapeBody([]) == [];
  }

  lemma {:induction false} EscapedLength(s: string, k: nat)
    requires k <= |s|
    ensures |EscapeBody(s[..k])| == k + |Marks(s, k)|
  {
    if k == 0 {
      assert Marks(s, 0) == {};
    } else {
      EscapedLength(s, k - 1);
      EscapeBodyFirst(s, k - 1);
      MarksNext(s, k - 1);
    }
  }

  /** The character at `i` stands behind those before it and their backslashes. */
  ghost predicate StandsAt(s: string, t: string, i: nat)
    requires i < |s|
  {
    var k := i + |Marks(s, i)|;
    if s[i] == '"' || s[i] == '\\' then k + 1 < |t| && t[k] == '\\' && t[k + 1] == s[i] else k < |t| && t[k] == s[i]
  }

  lemma PartStands(s: string, t: string, i: nat, a: string, b: string, c: string)
    requires i < |s| && |a| == i + |Marks(s, i)| && t == a + b + c
    requires b == if s[i] == '"' || s[i] == '\\' then ['\\', s[i]] else [s[i]]
    ensures StandsAt(s, t, i)
  {
    hide Marks;
    assert forall j :: 0 <= j < |b| ==> t[|a| + j] == b[j];
  }

  lemma EscapedAt(s: string, i: nat)
    requires i < |s|
    ensures StandsAt(s, EscapeBody(s), i)
  {
    hide EscapeBody, Marks, StandsAt;
    var part := if s[i] == '"' || s[i] == '\\' then ['\\', s[i]] else [s[i]];
    EscapedLength(s, i);
    EscapeBodyFirst(s, i);
    EscapeBodyParts(s[..i + 1], s[i + 1..]);
    assert s[..i + 1] + s[i + 1..] == s;
    PartStands(s, EscapeBody(s), i, EscapeBody(s[..i]), part, EscapeBody(s[i + 1..]));
  }

  lemma {:induction false} NothingToEscape(s: string)
    requires '"' !in s && '\\' !in s
    ensures EscapeBody(s) == s
  {
    if s != [] { NothingToEscape(s[1..]); }
  }

  lemma EscapedExactly(s: string)
    ensures IsEscaped(s, EscapeBody(s))
    ensures '"' !in s && '\\' !in s ==> EscapeBody(s) == s
  {
    assert s[..|s|] == s;
    EscapedLength(s, |s|);
    hide EscapeBody, Marks;
    forall i: nat | i < |s| ensures StandsAt(s, EscapeBody(s), i) {
      EscapedAt(s, i);
    }
    if '"' !in s && '\\' !in s { NothingToEscape(s); }
  }

  // ---------- Printing ----------

  /** The line for a symbol with the given value text. */
  function PrintLine(pre: string, kind: SymKind, name: string, value: string): string {
    if IsTri(kind) && value != [] && value[0] == 'n' then
      "# " + pre + name + " " + NOT_SET + "\n"
    else
      pre + name + "=" + value + "\n"
  }

  predicate IsTri(kind: SymKind) {
    kind.Boolean? || kind.TristateKind?
  }

  /** String symbols are printed escaped. */
  function WriteSymbol(pre: string, kind: SymKind, name: string, value: string): string {
    PrintLine(pre, kind, name, if kind.Str? then Escaped(value) else value)
  }

  /** The lines, letter for letter; the text of a string stands escaped in quotes. */
  lemma LineExactly(pre: string, kind: SymKind, name: string, value: string)
    requires HasValue(kind, value)
    ensures IsTri(kind) && value == "n" ==> WriteSymbol(pre, kind, name, value) == "# " + pre + name + " is not set\n"
    ensures IsTri(kind) && value != "n" ==> WriteSymbol(pre, kind, name, value) == pre + name + "=" + value + "\n"
    ensures kind.Int? || kind.Hex? ==> WriteSymbol(pre, kind, name, value) == pre + name + "=" + value + "\n"
    ensures kind.Str? ==>
      exists t :: IsEscaped(value, t) && WriteSymbol(pre, kind, name, value) == pre + name + "=" + ("\"" + t + "\"") + "\n"
  {
    hide IsEscaped;
    EscapedExactly(value);
    assert " " + "is not set" + "\n" == " is not set\n";
    assert "# " + pre + name + " " + NOT_SET + "\n" == "# " + pre + name + " is not set\n";
  }

  // ---------- Reading ----------

  datatype Reading =
    | Ignored
    | Invalid
    | SetTri(name: string, tri: Tristate)
    | SetText(name: string, text: string)

  /** The position of the first `c`, or the length. */
  function IndexOf(s: string, c: char): (i: nat)
    ensures i <= |s| && (i < |s| ==> s[i] == c) && forall k :: 0 <= k < i ==> s[k] != c
  {
    if s == [] || s[0] == c then 0 else 1 + IndexOf(s[1..], c)
  }

  /** What a value text means for a symbol. */
  function ReadValue(kind: SymKind, name: string, p: string): Reading {
    match kind
    case TristateKind =>
      if p != [] && p[0] == 'm' then SetTri(name, MOD)
      else if p != [] && p[0] == 'y' then SetTri(name, YES)
      else if p != [] && p[0] == 'n' then SetTri(name, NO)
      else Invalid
    case Boolean =>
      if p != [] && p[0] == 'y' then SetTri(name, YES)
      else if p != [] && p[0] == 'n' then SetTri(name, NO)
      else Invalid
    case Str =>
      if p == [] || p[0] != '"' then Ignored
      else
        var u := Unescaped(p[1..]);
        if u.None? then Invalid else SetText(name, u.value)
    case Int => if StringValid(kind, p) then SetText(name, p) else Invalid
    case Hex => if StringValid(kind, p) then SetText(name, p) else Invalid
    case _ => Ignored
  }

  /** The value text: up to the newline, without a carriage return before it. */
  function CutValue(s: string): string {
    var i := IndexOf(s, '\n');
    if i == |s| then s
    else if i > 0 && s[i - 1] == '\r' then s[..i - 1]
    else s[..i]
  }

  /** What a comment line means from the name on. */
  function ReadNotSet(kinds: map<string, SymKind>, rest: string): Reading {
    var i := IndexOf(rest, ' ');
    if i == |rest| || !(NOT_SET <= rest[i + 1..]) then Ignored
    else
      var name := rest[..i];
      if name in kinds && IsTri(kinds[name]) then SetTri(name, NO) else Ignored
  }

  /** What a line means, given the kinds of the known symbols. */
  function ReadLine(pre: string, kinds: map<string, SymKind>, line: string): Reading {
    if line != [] && line[0] == '#' then
      if |line| < 2 || !(pre <= line[2..]) then Ignored else ReadNotSet(kinds, line[2..][|pre|..])
    else if pre <= line then
      var rest := line[|pre|..];
      var i := IndexOf(rest, '=');
      if i == |rest| then Ignored
      else
        var name := rest[..i];
        if name in kinds then ReadValue(kinds[name], name, CutValue(rest[i + 1..])) else Ignored
    else Ignored
  }

  // ---------- Round trip ----------

  /** Names as the configuration language forms them: no blanks, `=`, or `#`. */
  predicate ValidName(name: string) {
    forall i :: 0 <= i < |name| ==> name[i] != ' ' && name[i] != '=' && name[i] != '#' && name[i] != '\n'
  }

  /** What a value text says. */
  function Meaning(kind: SymKind, name: string, value: string): Reading {
    if IsTri(kind) then
      SetTri(name, if value == "y" then YES else if value == "m" then MOD else NO)
    else SetText(name, value)
  }

  /** The value texts that symbols of a kind have. */
  predicate HasValue(kind: SymKind, value: string) {
    match kind
    case Boolean => value == "y" || value == "n"
    case TristateKind => value == "y" || value == "m" || value == "n"
    case Str => true
    case Int => ValidInt(value)
    case Hex => ValidHex(value)
    case _ => false
  }

  lemma {:induction false} IndexOfAfter(a: string, c: char, b: string)
    requires forall k :: 0 <= k < |a| ==> a[k] != c
    ensures IndexOf(a + [c] + b, c) == |a|
  {
    var s := a + [c] + b;
    assert s[|a|] == c;
    assert forall k :: 0 <= k < |a| ==> s[k] == a[k];
  }

  lemma NumbersHaveNoBreaks(kind: SymKind, value: string)
    requires HasValue(kind, value) && !kind.Str?
    ensures value != [] && forall k :: 0 <= k < |value| ==> value[k] != '\n' && value[k] != '\r'
  {
    if kind.Int? && value[0] == '-' {
      assert forall k :: 1 <= k < |value| ==> value[k] == value[1..][k - 1];
    } else if kind.Hex? && |value| >= 2 && value[0] == '0' && (value[1] == 'x' || value[1] == 'X') {
      assert forall k :: 2 <= k < |value| ==> value[k] == value[2..][k - 2];
    }
  }

  lemma {:induction false} EscapeBodyBreaks(s: string, c: char)
    requires !Special(c)
    ensures c in EscapeBody(s) <==> c in s
  {
    if s != [] {
      EscapeBodyBreaks(s[1..], c);
      assert s == [s[0]] + s[1..];
    }
  }

  /** A value that is cut at the final newline only. */
  lemma CutWhole(v: string)
    requires v != [] && forall k :: 0 <= k < |v| ==> v[k] != '\n'
    requires v[|v| - 1] != '\r'
    ensures CutValue(v + "\n") == v
  {
    IndexOfAfter(v, '\n', []);
    assert v + "\n" + [] == v + "\n";
  }

  /** A line that assigns, taken apart. */
  lemma ReadAssignment(pre: string, kinds: map<string, SymKind>, name: string, v: string)
    requires ValidName(name) && ValidName(pre) && name in kinds
    ensures ReadLine(pre, kinds, pre + name + "=" + v) == ReadValue(kinds[name], name, CutValue(v))
  {
    hide IndexOf, ReadValue, CutValue;
    var line := pre + name + "=" + v;
    assert line[0] == (pre + name + "=")[0];
    assert pre <= line && line[|pre|..] == name + "=" + v;
    IndexOfAfter(name, '=', v);
    assert (name + "=" + v)[..|name|] == name && (name + "=" + v)[|name| + 1..] == v;
  }

  /** A line that says "is not set", taken apart. */
  lemma ReadBackNotSet(pre: string, kinds: map<string, SymKind>, name: string)
    requires ValidName(name) && name in kinds && IsTri(kinds[name])
    ensures ReadLine(pre, kinds, "# " + pre + name + " " + NOT_SET + "\n") == SetTri(name, NO)
  {
    hide IndexOf, ReadValue, CutValue;
    var line := "# " + pre + name + " " + NOT_SET + "\n";
    var tail := NOT_SET + "\n";
    assert line == "# " + (pre + (name + " " + tail));
    assert line[2..] == pre + (name + " " + tail);
    assert line[2..][|pre|..] == name + " " + tail;
    IndexOfAfter(name, ' ', tail);
    assert (name + " " + tail)[..|name|] == name && (name + " " + tail)[|name| + 1..] == tail;
  }

  lemma ReadBackString(pre: string, kinds: map<string, SymKind>, name: string, value: string)
    requires ValidName(name) && ValidName(pre) && name in kinds && kinds[name].Str? && '\n' !in value
    ensures ReadLine(pre, kinds, pre + name + "=" + (Escaped(value) + "\n")) == SetText(name, value)
  {
    hide ReadLine, CutValue;
    var v := Escaped(value);
    ReadAssignment(pre, kinds, name, v + "\n");
    EscapeBodyBreaks(value, '\n');
    assert v[|v| - 1] == '"';
    CutWhole(v);
    UnescapeEscape(value, []);
    assert v[1..] == EscapeBody(value) + "\"" + [];
  }

  lemma ReadBackPlain(pre: string, kinds: map<string, SymKind>, name: string, value: string)
    requires ValidName(name) && ValidName(pre) && name in kinds && HasValue(kinds[name], value) && !kinds[name].Str?
    requires !(IsTri(kinds[name]) && value[0] == 'n')
    ensures ReadLine(pre, kinds, pre + name + "=" + (value + "\n")) == Meaning(kinds[name], name, value)
  {
    hide ReadLine, CutValue;
    ReadAssignment(pre, kinds, name, value + "\n");
    NumbersHaveNoBreaks(kinds[name], value);
    CutWhole(value);
  }

  /** What is written is read back: for bool and tristate symbols, for numbers,
      and for all strings without a newline. */
  lemma RoundTrip(pre: string, kinds: map<string, SymKind>, name: string, value: string)
    requires ValidName(name) && ValidName(pre) && name in kinds && HasValue(kinds[name], value)
    requires kinds[name].Str? ==> '\n' !in value
    ensures ReadLine(pre, kinds, WriteSymbol(pre, kinds[name], name, value)) == Meaning(kinds[name], name, value)
  {
    hide ReadLine;
    var kind := kinds[name];
    if kind.Str? {
      assert pre + name + "=" + Escaped(value) + "\n" == pre + name + "=" + (Escaped(value) + "\n");
      ReadBackString(pre, kinds, name, value);
    } else if IsTri(kind) && value[0] == 'n' {
      ReadBackNotSet(pre, kinds, name);
    } else {
      assert pre + name + "=" + value + "\n" == pre + name + "=" + (value + "\n");
      ReadBackPlain(pre, kinds, name, value);
    }
  }

  // ---------- Exactly what is read ----------

  /** A line gives a bool or tristate symbol a value exactly if it begins with the
      prefix, the name, `=` and the letter, whatever follows, or says in a comment that
      the symbol is not set. There is no m for a bool. */
  lemma ReadTriExactly(pre: string, kinds: map<string, SymKind>, line: string, name: string, v: Tristate)
    ensures ReadLine(pre, kinds, line) == SetTri(name, v) <==>
      && name in kinds && IsTri(kinds[name]) && line != []
      && (if line[0] == '#' then v == NO && ' ' !in name && |line| >= 2 && pre + (name + (" " + NOT_SET)) <= line[2..]
          else
            && '=' !in name && (v == MOD ==> kinds[name].TristateKind?)
            && pre + (name + ['=', if v == YES then 'y' else if v == MOD then 'm' else 'n']) <= line)
  {
    hide ReadValue, ReadNotSet, CutValue;
    if line == [] {
      assert ReadLine(pre, kinds, line) != SetTri(name, v) by { ReadsNothing(pre, kinds); }
    } else if line[0] == '#' {
      if |line| >= 2 && pre <= line[2..] { ReadNotSetExactly(kinds, line[2..][|pre|..], name, v); }
      PrefixOf(pre, name + (" " + NOT_SET), if |line| >= 2 then line[2..] else []);
    } else {
      var tail := ['=', if v == YES then 'y' else if v == MOD then 'm' else 'n'];
      PrefixOf(pre, name + tail, line);
      if pre <= line { ReadAfterPrefix(kinds, line[|pre|..], name, v, tail[1]); }
    }
  }

  lemma ReadsNothing(pre: string, kinds: map<string, SymKind>)
    ensures ReadLine(pre, kinds, []) == Ignored
  {
  }

  lemma PrefixOf(a: string, b: string, s: string)
    ensures a + b <= s <==> a <= s && b <= s[|a|..]
  {
    if a + b <= s {
      assert s[..|a| + |b|] == a + b;
      assert s[..|a|] == a && s[|a|..][..|b|] == b;
    }
    if a <= s && b <= s[|a|..] {
      assert s == a + s[|a|..];
    }
  }

  /** What is before the first `c`, and what begins behind it. */
  lemma SplitsAt(rest: string, c: char, name: string, tail: string)
    ensures
      var i := IndexOf(rest, c);
      c !in name && name + ([c] + tail) <= rest <==> i < |rest| && rest[..i] == name && tail <= rest[i + 1..]
  {
    hide IndexOf;
    PrefixOf(name, [c] + tail, rest);
    if name <= rest {
      PrefixOf([c], tail, rest[|name|..]);
      if |name| < |rest| {
        assert rest[|name|..][1..] == rest[|name| + 1..];
        assert [c] <= rest[|name|..] <==> rest[|name|] == c;
        if rest[|name|] == c && c !in name {
          assert rest == name + [c] + rest[|name| + 1..];
          IndexOfAfter(name, c, rest[|name| + 1..]);
        }
      }
    }
  }

  lemma ReadNotSetExactly(kinds: map<string, SymKind>, rest: string, name: string, v: Tristate)
    ensures ReadNotSet(kinds, rest) == SetTri(name, v) <==>
      name in kinds && IsTri(kinds[name]) && v == NO && ' ' !in name && name + (" " + NOT_SET) <= rest
  {
    SplitsAt(rest, ' ', name, NOT_SET);
    assert [' '] == " ";
    hide IndexOf;
  }

  lemma ReadAfterPrefix(kinds: map<string, SymKind>, rest: string, name: string, v: Tristate, c: char)
    requires c == if v == YES then 'y' else if v == MOD then 'm' else 'n'
    ensures
      var i := IndexOf(rest, '=');
      (i < |rest| && rest[..i] in kinds && ReadValue(kinds[rest[..i]], rest[..i], CutValue(rest[i + 1..])) == SetTri(name, v))
      <==> name in kinds && IsTri(kinds[name]) && '=' !in name && (v == MOD ==> kinds[name].TristateKind?) && name + ['=', c] <= rest
  {
    SplitsAt(rest, '=', name, [c]);
    assert ['='] + [c] == ['=', c];
    hide CutValue, StringValid, Unescaped, IndexOf, ReadValue, IsTri;
    var i := IndexOf(rest, '=');
    if i < |rest| {
      CutFirst(rest[i + 1..], c);
      StartsWith(rest[i + 1..], c);
      ReadValueNames(kinds, rest[..i], CutValue(rest[i + 1..]), name, v, c);
    }
  }

  lemma ReadValueNames(kinds: map<string, SymKind>, found: string, text: string, name: string, v: Tristate, c: char)
    requires c == if v == YES then 'y' else if v == MOD then 'm' else 'n'
    ensures
      (found in kinds && ReadValue(kinds[found], found, text) == SetTri(name, v))
      <==> found == name && name in kinds && IsTri(kinds[name]) && (v == MOD ==> kinds[name].TristateKind?) && text != [] && text[0] == c
  {
    hide StringValid, Unescaped;
  }

  lemma StartsWith(s: string, c: char)
    ensures [c] <= s <==> s != [] && s[0] == c
  {
  }

  lemma CutFirst(s: string, c: char)
    requires c != '\n' && c != '\r'
    ensures CutValue(s) != [] && CutValue(s)[0] == c <==> s != [] && s[0] == c
  {
  }

  // ---------- Strings with a newline ----------

  /** The first line of a file's text. */
  function FirstLine(text: string): string {
    var i := IndexOf(text, '\n');
    if i < |text| then text[..i + 1] else text
  }

  /** No part of an escaped body closes the string. */
  lemma {:induction false} BodyDoesNotClose(s: string, k: nat)
    requires k <= |EscapeBody(s)|
    ensures Unescaped(EscapeBody(s)[..k]) == None
  {
    var p := EscapeBody(s)[..k];
    if s != [] && k > 0 {
      var head := if Special(s[0]) then ['\\', s[0]] else [s[0]];
      var body := EscapeBody(s[1..]);
      assert EscapeBody(s) == head + body;
      assert p[0] == head[0];
      if k >= |head| {
        BodyDoesNotClose(s[1..], k - |head|);
        CutBehind(head, body, k);
        assert Unescaped(p[|head|..]) == None;
      }
      hide EscapeBody;
    }
  }

  lemma CutBehind(head: string, body: string, k: nat)
    requires |head| <= k <= |head| + |body|
    ensures (head + body)[..k][|head|..] == body[..k - |head|]
  {
  }

  /** A string comes back from the first line of what is written exactly if it
      holds no newline; otherwise that line is refused. */
  lemma StringRoundTripExactly(pre: string, kinds: map<string, SymKind>, name: string, value: string)
    requires ValidName(name) && ValidName(pre) && name in kinds && kinds[name].Str?
    ensures
      var r := ReadLine(pre, kinds, FirstLine(WriteSymbol(pre, Str, name, value)));
      && (r == SetText(name, value) <==> '\n' !in value)
      && ('\n' in value ==> r == Invalid)
  {
    hide ReadLine, CutValue, ReadValue, IndexOf, EscapeBody;
    var v := Escaped(value);
    var text := pre + name + "=" + v + "\n";
    EscapeBodyBreaks(value, '\n');
    var head := pre + name + "=";
    assert (v + "\n")[|v|] == '\n';
    var i := IndexOf(v + "\n", '\n');
    var tail := (v + "\n")[..i + 1];
    assert text == head + (v + "\n");
    assert head + tail == (head + tail[..i]) + ['\n'];
    assert text == (head + tail[..i]) + ['\n'] + (v + "\n")[i + 1..];
    IndexOfAfter(head + tail[..i], '\n', (v + "\n")[i + 1..]);
    assert FirstLine(text) == head + tail;
    if '\n' !in value {
      assert i == |v| && tail == v + "\n";
      RoundTrip(pre, kinds, name, value);
    } else {
      ReadAssignment(pre, kinds, name, tail);
      CutInside(name, value, i);
    }
  }

  /** Cutting drops the newline and perhaps one carriage return before it. */
  lemma CutIsPrefix(t: string)
    requires t != [] && t[0] != '\r' && forall k :: 0 <= k < |t| ==> t[k] != '\n'
    ensures
      var c := CutValue(t + "\n");
      1 <= |c| <= |t| && c == t[..|c|]
  {
    IndexOfAfter(t, '\n', []);
    assert t + "\n" + [] == t + "\n";
  }

  /** The value part of a line that breaks off inside an escaped string. */
  lemma CutInside(name: string, value: string, i: nat)
    requires i == IndexOf(Escaped(value) + "\n", '\n') && i < |Escaped(value) + "\n"| && '\n' in EscapeBody(value)
    ensures ReadValue(Str, name, CutValue((Escaped(value) + "\n")[..i + 1])) == Invalid
  {
    hide IndexOf, CutValue, EscapeBody;
    var v := Escaped(value);
    var body := EscapeBody(value);
    var k :| 0 <= k < |body| && body[k] == '\n';
    var text := v + "\n";
    assert text[k + 1] == '\n' && text[0] == '"';
    assert 0 < i <= k + 1;
    var t := text[..i];
    assert text[..i + 1] == t + "\n";
    CutIsPrefix(t);
    var n := |CutValue(t + "\n")|;
    assert t[..n] == v[..n];
    assert v[..n][1..] == body[..n - 1];
    BodyDoesNotClose(value, n - 1);
  }
}
