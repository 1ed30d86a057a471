/** The same on buffers of characters that end with NUL, which the program
    writes and rewrites in place. */
module ConfBuffer {
  import opened Options
  import opened Tristates
  import opened Exprs
  import opened ConfText

  const NUL: char := '\0'

  /** The string that starts at `i`. */
  function CStr(b: seq<char>, i: nat): (s: string)
    requires i <= |b|
    ensures i + |s| <= |b| && s == b[i..i + |s|]
    ensures forall k :: 0 <= k < |s| ==> s[k] != NUL
    ensures i + |s| < |b| ==> b[i + |s|] == NUL
    decreases |b| - i
  {
    if i == |b| || b[i] == NUL then [] else [b[i]] + CStr(b, i + 1)
  }

  /** A NUL follows at or after `i`. */
  predicate Terminated(b: seq<char>, i: nat) {
    i < |b| && i + |CStr(b, i)| < |b|
  }

  lemma {:induction false} CStrIs(b: seq<char>, i: nat, n: nat)
    requires i + n < |b| && b[i + n] == NUL && forall k :: i <= k < i + n ==> b[k] != NUL
    ensures CStr(b, i) == b[i..i + n] && Terminated(b, i)
    decreases n
  {
    if n > 0 {
      CStrIs(b, i + 1, n - 1);
      assert b[i..i + n] == [b[i]] + b[i + 1..i + n];
    }
  }

  lemma CStrHead(b: seq<char>, i: nat)
    requires i < |b|
    ensures CStr(b, i) == [] <==> b[i] == NUL
    ensures b[i] != NUL ==> CStr(b, i)[0] == b[i]
  {
  }

  lemma CStrFrom(b: seq<char>, i: nat, k: nat)
    requires Terminated(b, i) && k <= |CStr(b, i)|
    ensures CStr(b, i + k) == CStr(b, i)[k..] && Terminated(b, i + k)
  {
    var n := |CStr(b, i)|;
    assert forall j :: i <= j < i + n ==> b[j] == CStr(b, i)[j - i];
    CStrIs(b, i + k, n - k);
  }

  lemma CStrCut(b: seq<char>, b': seq<char>, i: nat, k: nat)
    requires Terminated(b, i) && k <= |CStr(b, i)|
    requires |b'| == |b| && b'[i + k] == NUL && forall j :: i <= j < i + k ==> b'[j] == b[j]
    ensures CStr(b', i) == CStr(b, i)[..k] && Terminated(b', i)
  {
    assert forall j :: i <= j < i + k ==> b[j] == CStr(b, i)[j - i];
    CStrIs(b', i, k);
  }

  // ---------- Escaping ----------

  /** A character as it is written between quotes. */
  function EscapedChar(c: char): string {
    if Special(c) then ['\\', c] else [c]
  }

  /** Adds a character to a buffer that holds `out` so far. */
  method AppendEscaped(res: array<char>, n: nat, c: char, ghost out: string) returns (n': nat)
    requires n + |EscapedChar(c)| < res.Length && res[..n] == out
    modifies res
    ensures n' == n + |EscapedChar(c)| && res[..n'] == out + EscapedChar(c)
  {
    n' := n;
    if Special(c) {
      res[n'] := '\\';
      n' := n' + 1;
    }
    res[n'] := c;
    n' := n' + 1;
  }

  lemma EscapeStep(s: string, p: nat, out: string)
    requires p < |s|
    ensures EscapeBody(s[p..]) == EscapedChar(s[p]) + EscapeBody(s[p + 1..])
    ensures out + EscapeBody(s[p..]) == (out + EscapedChar(s[p])) + EscapeBody(s[p + 1..])
  {
    assert s[p..][1..] == s[p + 1..];
  }

  lemma {:induction false} EscapeLength(s: string)
    ensures |EscapeBody(s)| == |s| + CountSpecial(s)
  {
    if s != [] { EscapeLength(s[1..]); }
  }

  /** One backslash more for every special character of the text. */
  method EscapedSize(s: string) returns (reslen: nat)
    ensures reslen == |s| + 2 + 1 + CountSpecial(s)
    ensures reslen == |s| + 3 + |Marks(s, |s|)|
  {
    EscapedExactly(s);
    EscapeLength(s);
    reslen := |s| + 2 + 1;
    var p := 0;
    while p < |s|
      invariant 0 <= p <= |s| && reslen + CountSpecial(s[p..]) == |s| + 2 + 1 + CountSpecial(s)
    {
      assert s[p..][1..] == s[p + 1..];
      if Special(s[p]) {
        reslen := reslen + 1;
      }
      p := p + 1;
    }
  }

  /** The buffer is exactly as long as what is written into it. */
  method EscapeString(s: string) returns (res: array<char>)
    requires NUL !in s
    ensures fresh(res) && res.Length == |Escaped(s)| + 1
    ensures CStr(res[..], 0) == Escaped(s) && Terminated(res[..], 0)
    ensures exists t :: IsEscaped(s, t) && CStr(res[..], 0) == "\"" + t + "\""
    ensures '"' !in s && '\\' !in s ==> CStr(res[..], 0) == "\"" + s + "\""
  {
    hide EscapeBody, CStr, IsEscaped;
    EscapedExactly(s);
    var reslen := EscapedSize(s);
    EscapeLength(s);
    res := new char[reslen];
    ghost var out := "\"";
    res[0] := '"';
    var n, p := 1, 0;
    while p < |s|
      invariant 0 <= p <= |s| && 0 <= n && n + |EscapeBody(s[p..])| + 2 == reslen == res.Length
      invariant res[..n] == out && out + EscapeBody(s[p..]) == "\"" + EscapeBody(s)
    {
      EscapeStep(s, p, out);
      n := AppendEscaped(res, n, s[p], out);
      out := out + EscapedChar(s[p]);
      p := p + 1;
    }
    assert s[p..] == [];
    EscapeLength([]);
    assert out == out + EscapeBody([]);
    res[n] := '"';
    res[n + 1] := NUL;
    assert res[..n + 1] == Escaped(s);
    EscapeBodyBreaks(s, NUL);
    assert forall k :: 0 <= k < n + 1 ==> res[..][k] == Escaped(s)[k];
    CStrIs(res[..], 0, n + 1);
  }

  // ---------- Unescaping in place ----------

  method StrLen(b: array<char>, i: nat) returns (n: nat)
    requires Terminated(b[..], i)
    ensures n == |CStr(b[..], i)|
  {
    n := 0;
    while b[i + n] != NUL
      invariant n <= |CStr(b[..], i)|
      decreases |CStr(b[..], i)| - n
    {
      n := n + 1;
    }
  }

  /** Closes the gap after dropping the character at `i`: moves the rest of the
      string, with its NUL, one to the left. */
  method ShiftLeft(b: array<char>, i: nat)
    requires Terminated(b[..], i) && CStr(b[..], i) != []
    modifies b
    ensures b[..i] == old(b[..i])
    ensures Terminated(b[..], i) && CStr(b[..], i) == old(CStr(b[..], i))[1..]
    ensures i + 1 < b.Length && (|old(CStr(b[..], i))| == 1 ==> b[i + 1] == NUL)
  {
    hide CStr;
    ghost var b0 := b[..];
    var n := StrLen(b, i);
    for k := i to i + n
      invariant i <= k <= i + n && b.Length == |b0|
      invariant b[..i] == b0[..i] && forall j :: k <= j < b.Length ==> b[j] == b0[j]
      invariant forall j :: i <= j < k ==> b[j] == b0[j + 1]
    {
      b[k] := b[k + 1];
    }
    Shifted(b0, b[..], i);
  }

  lemma Shifted(b: seq<char>, b': seq<char>, i: nat)
    requires Terminated(b, i) && CStr(b, i) != [] && |b'| == |b|
    requires forall j :: i <= j < i + |CStr(b, i)| ==> b'[j] == b[j + 1]
    ensures Terminated(b', i) && CStr(b', i) == CStr(b, i)[1..]
  {
    hide CStr;
    var s := CStr(b, i);
    assert forall j :: 0 <= j < |s| ==> s[j] == b[i + j];
    CStrIs(b', i, |s| - 1);
  }

  function Prepend(a: string, r: Option<string>): Option<string> {
    if r.None? then None else Some(a + r.value)
  }

  lemma {:induction false} SkipPlain(a: string, b: string)
    requires forall k :: 0 <= k < |a| ==> !Special(a[k])
    ensures Unescaped(a + b) == Prepend(a, Unescaped(b))
  {
    if a == [] {
      assert a + b == b;
      assert Unescaped(b).Some? ==> a + Unescaped(b).value == Unescaped(b).value;
    } else {
      SkipPlain(a[1..], b);
      assert (a + b)[1..] == a[1..] + b;
      if Unescaped(b).Some? {
        assert [a[0]] + (a[1..] + Unescaped(b).value) == a + Unescaped(b).value;
      }
    }
  }

  /** The next quote or backslash of the string at `i`, if any. */
  method FindSpecial(b: array<char>, i: nat) returns (found: bool, j: nat)
    requires Terminated(b[..], i)
    ensures found ==> NextSpecial(b[..], i, j)
    ensures !found ==> forall k :: i <= k < i + |CStr(b[..], i)| ==> !Special(b[k])
  {
    j := i;
    while b[j] != NUL
      invariant i <= j <= i + |CStr(b[..], i)| && forall k :: i <= k < j ==> !Special(b[k])
      decreases i + |CStr(b[..], i)| - j
    {
      assert j < i + |CStr(b[..], i)|;
      if Special(b[j]) {
        return true, j;
      }
      j := j + 1;
    }
    ghost var s := CStr(b[..], i);
    assert forall k :: i <= k < i + |s| ==> b[k] == s[k - i];
    found := false;
  }

  /** The string without special characters has no closing quote. */
  lemma PlainDoesNotClose(s: string)
    requires forall k :: 0 <= k < |s| ==> !Special(s[k])
    ensures Unescaped(s) == None
  {
    SkipPlain(s, []);
    assert s + [] == s;
  }

  /** The next special character of `s` is at `k`. */
  lemma SpecialAt(s: string, k: nat)
    requires k < |s| && Special(s[k]) && forall i :: 0 <= i < k ==> !Special(s[i])
    ensures s[k] == '"' ==> Unescaped(s) == Some(s[..k])
    ensures s[k] == '\\' && k + 1 == |s| ==> Unescaped(s) == None
    ensures s[k] == '\\' && k + 1 < |s| ==> Unescaped(s) == Prepend(s[..k] + [s[k + 1]], Unescaped(s[k + 2..]))
  {
    var t := s[k..];
    SkipPlain(s[..k], t);
    assert s[..k] + t == s;
    if s[k] == '"' {
      assert Unescaped(t) == Some([]);
      assert s[..k] + [] == s[..k];
    } else if k + 1 < |s| {
      assert t[2..] == s[k + 2..];
      if Unescaped(s[k + 2..]).Some? {
        var r := Unescaped(s[k + 2..]).value;
        assert s[..k] + ([s[k + 1]] + r) == (s[..k] + [s[k + 1]]) + r;
      }
    }
  }

  lemma PrependTwice(a: string, b: string, r: Option<string>)
    ensures Prepend(a, Prepend(b, r)) == Prepend(a + b, r)
  {
    if r.Some? {
      assert a + (b + r.value) == (a + b) + r.value;
    }
  }

  /** The text from `p` to `p2` is done, the string at `p2` is still to do. */
  ghost predicate Halfway(b: seq<char>, p: nat, p2: nat, orig: string) {
    && p <= p2 && Terminated(b, p2) && NUL !in b[p..p2]
    && Unescaped(orig) == Prepend(b[p..p2], Unescaped(CStr(b, p2)))
  }

  /** `j` is the next quote or backslash of the string at `i`. */
  predicate NextSpecial(b: seq<char>, i: nat, j: nat)
    requires i <= |b|
  {
    i <= j < i + |CStr(b, i)| && Special(b[j]) && forall k :: i <= k < j ==> !Special(b[k])
  }

  /** The text that remains after dropping the character at `j` of `b`. */
  predicate Dropped(b: seq<char>, b': seq<char>, j: nat)
    requires j < |b|
  {
    && |b'| == |b| && b'[..j] == b[..j]
    && CStr(b, j) != [] && Terminated(b', j) && CStr(b', j) == CStr(b, j)[1..]
  }

  lemma SpecialInString(b: seq<char>, p2: nat, j: nat)
    requires Terminated(b, p2) && NextSpecial(b, p2, j)
    ensures
      var s, k := CStr(b, p2), j - p2;
      && s[k] == b[j] && b[p2..j] == s[..k] && Terminated(b, j) && CStr(b, j) == s[k..]
      && (s[k] == '"' ==> Unescaped(s) == Some(s[..k]))
      && (s[k] == '\\' && k + 1 == |s| ==> Unescaped(s) == None)
      && (s[k] == '\\' && k + 1 < |s| ==> Unescaped(s) == Prepend(s[..k] + [s[k + 1]], Unescaped(s[k + 2..])))
  {
    hide Unescaped, CStr;
    var s, k := CStr(b, p2), j - p2;
    assert forall i :: 0 <= i < |s| ==> s[i] == b[p2 + i];
    assert b[p2..j] == s[..k];
    CStrFrom(b, p2, k);
    SpecialAt(s, k);
  }

  /** Dropping the backslash at `j` and stepping over the next character. */
  lemma DropStep(b: seq<char>, b': seq<char>, p: nat, p2: nat, j: nat, orig: string)
    requires Halfway(b, p, p2, orig) && NextSpecial(b, p2, j) && b[j] == '\\' && Dropped(b, b', j)
    requires b'[j] != NUL
    ensures Halfway(b', p, j + 1, orig) && b'[..p] == b[..p]
    ensures |CStr(b', j + 1)| < |CStr(b, p2)|
  {
    hide Unescaped, CStr, Prepend;
    var s, k := CStr(b, p2), j - p2;
    SpecialInString(b, p2, j);
    assert CStr(b', j) == s[k + 1..];
    CStrHead(b', j);
    CStrFrom(b', j, 1);
    assert CStr(b', j + 1) == s[k + 2..];
    assert b'[j] == s[k + 1];
    assert forall i :: 0 <= i < j ==> b'[i] == b'[..j][i] == b[..j][i] == b[i];
    assert b'[p..j + 1] == b[p..p2] + (s[..k] + [s[k + 1]]);
    PrependTwice(b[p..p2], s[..k] + [s[k + 1]], Unescaped(s[k + 2..]));
  }

  /** The string ends with the backslash at `j`. */
  lemma DropLast(b: seq<char>, b': seq<char>, p: nat, p2: nat, j: nat, orig: string)
    requires Halfway(b, p, p2, orig) && NextSpecial(b, p2, j) && b[j] == '\\' && Dropped(b, b', j)
    requires b'[j] == NUL && j + 1 < |b'| && (|CStr(b, j)| == 1 ==> b'[j + 1] == NUL)
    ensures Unescaped(orig) == None && Terminated(b', j + 1) && CStr(b', j + 1) == []
    ensures b'[..p] == b[..p]
  {
    hide Unescaped, CStr;
    SpecialInString(b, p2, j);
    CStrHead(b', j);
    CStrIs(b', j + 1, 0);
    assert b'[..p] == b'[..j][..p] == b[..j][..p] == b[..p];
  }

  /** Ending the string at the closing quote at `j`. */
  lemma CloseStep(b: seq<char>, b': seq<char>, p: nat, p2: nat, j: nat, orig: string)
    requires Halfway(b, p, p2, orig) && NextSpecial(b, p2, j) && b[j] == '"' && b' == b[j := NUL]
    ensures b'[..p] == b[..p] && Terminated(b', p) && Some(CStr(b', p)) == Unescaped(orig)
  {
    hide Unescaped, CStr;
    SpecialInString(b, p2, j);
    var s, k := CStr(b, p2), j - p2;
    assert forall i :: p <= i < p2 ==> b[i] == b[p..p2][i - p];
    assert forall i :: p2 <= i < j ==> b[i] == s[i - p2];
    CStrIs(b', p, j - p);
    assert b'[p..j] == b[p..p2] + s[..k];
  }

  lemma HalfwayTerminated(b: seq<char>, p: nat, p2: nat, orig: string)
    requires Halfway(b, p, p2, orig)
    ensures p <= p2 && Terminated(b, p2)
  {
  }

  /** Drops the backslash at `j`; the character it escapes moves to `j`. */
  method DropBackslash(b: array<char>, p: nat, p2: nat, j: nat, ghost orig: string) returns (ghost alive: bool)
    requires Halfway(b[..], p, p2, orig) && NextSpecial(b[..], p2, j) && b[j] == '\\'
    modifies b
    ensures b[..p] == old(b[..p]) && Terminated(b[..], j + 1)
    ensures |CStr(b[..], j + 1)| < |old(CStr(b[..], p2))|
    ensures alive ==> Halfway(b[..], p, j + 1, orig)
    ensures !alive ==> Unescaped(orig) == None && CStr(b[..], j + 1) == []
  {
    hide Unescaped, CStr, Halfway;
    ghost var b0 := b[..];
    HalfwayTerminated(b0, p, p2, orig);
    SpecialInString(b0, p2, j);
    ShiftLeft(b, j);
    alive := b[j] != NUL;
    if alive {
      DropStep(b0, b[..], p, p2, j, orig);
    } else {
      DropLast(b0, b[..], p, p2, j, orig);
    }
  }

  /** Removes the escaping backslashes and cuts at the closing quote. */
  method UnescapeInPlace(b: array<char>, p: nat) returns (ok: bool)
    requires Terminated(b[..], p)
    modifies b
    ensures b[..p] == old(b[..p])
    ensures ok <==> Unescaped(old(CStr(b[..], p))).Some?
    ensures ok ==> Terminated(b[..], p) && Some(CStr(b[..], p)) == Unescaped(old(CStr(b[..], p)))
  {
    hide Unescaped, CStr, Halfway;
    ghost var orig := CStr(b[..], p);
    var p2: nat := p;
    ghost var alive := true;
    StartHalfway(b[..], p);
    var found: bool, j: nat := FindSpecial(b, p2);
    while found
      invariant p2 <= b.Length && b[..p] == old(b[..p]) && Terminated(b[..], p2)
      invariant alive ==> Halfway(b[..], p, p2, orig)
      invariant !alive ==> Unescaped(orig) == None && CStr(b[..], p2) == []
      invariant found ==> NextSpecial(b[..], p2, j)
      invariant !found ==> forall k :: p2 <= k < p2 + |CStr(b[..], p2)| ==> !Special(b[k])
      decreases |CStr(b[..], p2)|, found
    {
      if b[j] == '"' {
        ghost var b0 := b[..];
        b[j] := NUL;
        CloseStep(b0, b[..], p, p2, j, orig);
        return true;
      }
      alive := DropBackslash(b, p, p2, j, orig);
      p2 := j + 1;
      found, j := FindSpecial(b, p2);
    }
    if alive { NothingLeft(b[..], p, p2, orig); }
    ok := false;
  }

  lemma StartHalfway(b: seq<char>, p: nat)
    requires Terminated(b, p)
    ensures Halfway(b, p, p, CStr(b, p))
  {
    assert b[p..p] == [];
    var u := Unescaped(CStr(b, p));
    if u.Some? { assert [] + u.value == u.value; }
  }

  lemma NothingLeft(b: seq<char>, p: nat, p2: nat, orig: string)
    requires Halfway(b, p, p2, orig)
    requires forall k :: p2 <= k < p2 + |CStr(b, p2)| ==> !Special(b[k])
    ensures Unescaped(orig) == None
  {
    hide CStr;
    var s := CStr(b, p2);
    assert forall i :: 0 <= i < |s| ==> s[i] == b[p2 + i];
    PlainDoesNotClose(s);
  }

  // ---------- Reading a line in place ----------

  lemma {:induction false} CStrSame(b: seq<char>, b': seq<char>, i: nat)
    requires i <= |b| == |b'| && b[i..] == b'[i..]
    ensures CStr(b, i) == CStr(b', i) && (Terminated(b, i) <==> Terminated(b', i))
    decreases |b| - i
  {
    if i < |b| {
      assert b[i] == b[i..][0] == b'[i..][0] == b'[i];
      assert b[i + 1..] == b[i..][1..] && b'[i + 1..] == b'[i..][1..];
      CStrSame(b, b', i + 1);
    }
  }

  /** The string at `i` starts with `pat`. */
  method StartsWith(b: array<char>, i: nat, pat: string) returns (yes: bool)
    requires Terminated(b[..], i) && NUL !in pat
    ensures yes <==> pat <= CStr(b[..], i)
  {
    ghost var s := CStr(b[..], i);
    assert forall k :: 0 <= k < |s| ==> s[k] == b[i + k];
    for k := 0 to |pat|
      invariant k <= |s| && pat[..k] == s[..k]
    {
      if b[i + k] != pat[k] {
        assert k < |s| ==> s[k] != pat[k];
        return false;
      }
    }
    return true;
  }

  lemma {:induction false} IndexOfIs(s: string, c: char, k: nat)
    requires k <= |s| && (k < |s| ==> s[k] == c) && forall i :: 0 <= i < k ==> s[i] != c
    ensures IndexOf(s, c) == k
  {
    if k > 0 { IndexOfIs(s[1..], c, k - 1); }
  }

  /** The first `c` of the string at `i`, or its end. */
  method StrChr(b: array<char>, i: nat, c: char) returns (found: bool, j: nat)
    requires Terminated(b[..], i) && c != NUL
    ensures j == i + IndexOf(CStr(b[..], i), c) && (found <==> j < i + |CStr(b[..], i)|)
  {
    hide CStr, IndexOf;
    ghost var s := CStr(b[..], i);
    assert forall k :: 0 <= k < |s| ==> s[k] == b[i + k];
    j := i;
    while b[j] != NUL && b[j] != c
      invariant i <= j <= i + |s| && forall k :: 0 <= k < j - i ==> s[k] != c
      decreases i + |s| - j
    {
      j := j + 1;
    }
    found := b[j] == c;
    IndexOfIs(s, c, j - i);
  }

  /** The string at `i` as a value. */
  method StrDup(b: array<char>, i: nat) returns (s: string)
    requires Terminated(b[..], i)
    ensures s == CStr(b[..], i)
  {
    var n := StrLen(b, i);
    s := b[i..i + n];
  }

  /** Ends the string at `i` before position `i + k`. */
  method CutAt(b: array<char>, i: nat, k: nat)
    requires Terminated(b[..], i) && k <= |CStr(b[..], i)|
    modifies b
    ensures b[..] == old(b[..])[i + k := NUL]
    ensures Terminated(b[..], i) && CStr(b[..], i) == old(CStr(b[..], i))[..k]
  {
    ghost var b0 := b[..];
    b[i + k] := NUL;
    CStrCut(b0, b[..], i, k);
  }

  lemma SplitParts(b: seq<char>, i: nat, k: nat)
    requires Terminated(b, i) && k < |CStr(b, i)|
    ensures
      var b' := b[i + k := NUL];
      && Terminated(b', i) && CStr(b', i) == CStr(b, i)[..k]
      && Terminated(b', i + k + 1) && CStr(b', i + k + 1) == CStr(b, i)[k + 1..]
  {
    hide CStr;
    var b' := b[i + k := NUL];
    CStrCut(b, b', i, k);
    CStrFrom(b, i, k + 1);
    CStrSame(b, b', i + k + 1);
  }

  /** Ends the string at `i` at its first `c`; what follows is a string too. */
  method SplitAt(b: array<char>, i: nat, c: char) returns (found: bool, next: nat)
    requires Terminated(b[..], i) && c != NUL
    modifies b
    ensures
      var s := old(CStr(b[..], i));
      var k := IndexOf(s, c);
      && (found <==> k < |s|)
      && (found ==>
        && next == i + k + 1 && Terminated(b[..], i) && CStr(b[..], i) == s[..k]
        && Terminated(b[..], next) && CStr(b[..], next) == s[k + 1..] && b[next - 1] == NUL)
  {
    hide CStr, IndexOf;
    var j;
    found, j := StrChr(b, i, c);
    next := j + 1;
    if found {
      ghost var t := b[..][j := NUL];
      SplitParts(b[..], i, j - i);
      b[j] := NUL;
      assert b[..] == t;
    }
  }

  /** Cuts the value text at the newline and a carriage return before it. */
  method CutLine(b: array<char>, p: nat)
    requires Terminated(b[..], p) && p > 0 && b[p - 1] == NUL
    modifies b
    ensures Terminated(b[..], p) && CStr(b[..], p) == CutValue(old(CStr(b[..], p)))
  {
    hide CStr, IndexOf;
    ghost var s := CStr(b[..], p);
    assert forall k :: 0 <= k < |s| ==> s[k] == b[p + k];
    var found, j := StrChr(b, p, '\n');
    if found {
      CutAt(b, p, j - p);
      assert j > p ==> b[j - 1] == s[j - 1 - p];
      if b[j - 1] == '\r' {
        CutAt(b, p, j - 1 - p);
        assert s[..j - p][..j - 1 - p] == s[..j - 1 - p];
      }
    }
  }

  /** Gives a symbol the value text at `p`. */
  method SetSymVal(b: array<char>, p: nat, kind: SymKind, name: string) returns (r: Reading)
    requires Terminated(b[..], p)
    modifies b
    ensures r == ReadValue(kind, name, old(CStr(b[..], p)))
  {
    hide Unescaped, CStr, ValidInt, ValidHex;
    CStrHead(b[..], p);
    if kind.TristateKind? && b[p] == 'm' {
      return SetTri(name, MOD);
    }
    if IsTri(kind) {
      return if b[p] == 'y' then SetTri(name, YES) else if b[p] == 'n' then SetTri(name, NO) else Invalid;
    }
    if kind.Str? {
      if b[p] != '"' {
        return Ignored;
      }
      CStrFrom(b[..], p, 1);
      var ok := UnescapeInPlace(b, p + 1);
      if !ok {
        return Invalid;
      }
      var text := StrDup(b, p + 1);
      return SetText(name, text);
    }
    if kind.Int? || kind.Hex? {
      var text := StrDup(b, p);
      return if StringValid(kind, text) then SetText(name, text) else Invalid;
    }
    return Ignored;
  }

  /** "NAME is not set". */
  method ReadNotSetInPlace(kinds: map<string, SymKind>, line: array<char>, start: nat) returns (r: Reading)
    requires Terminated(line[..], start)
    modifies line
    ensures r == ReadNotSet(kinds, old(CStr(line[..], start)))
  {
    hide CStr, IndexOf;
    var found, p := SplitAt(line, start, ' ');
    if !found {
      return Ignored;
    }
    var yes := StartsWith(line, p, NOT_SET);
    if !yes {
      return Ignored;
    }
    var name := StrDup(line, start);
    return if name in kinds && IsTri(kinds[name]) then SetTri(name, NO) else Ignored;
  }

  /** What a comment says, by the text from its third character on. */
  function ReadComment(pre: string, kinds: map<string, SymKind>, text: string): Reading {
    if pre <= text then ReadNotSet(kinds, text[|pre|..]) else Ignored
  }

  /** What is read from a buffer that holds a line. A comment is read from its
      third character on, even if that is behind the end of a lone `#`. */
  function ReadBuffer(pre: string, kinds: map<string, SymKind>, b: seq<char>): Reading
    requires Terminated(b, 0) && (b[0] == '#' ==> Terminated(b, 2))
  {
    if b[0] == '#' then ReadComment(pre, kinds, CStr(b, 2)) else ReadLine(pre, kinds, CStr(b, 0))
  }

  /** The text begins with the prefix, the name of a bool or tristate symbol, and
      " is not set". */
  ghost predicate SaysNotSet(pre: string, kinds: map<string, SymKind>, text: string) {
    exists name :: name in kinds && IsTri(kinds[name]) && ' ' !in name && pre + name + " " + NOT_SET <= text
  }

  lemma NotSetExactly(pre: string, kinds: map<string, SymKind>, text: string)
    ensures ReadComment(pre, kinds, text) != Ignored <==> SaysNotSet(pre, kinds, text)
  {
    if pre <= text {
      var rest := text[|pre|..];
      if ReadNotSet(kinds, rest) != Ignored {
        var i := IndexOf(rest, ' ');
        var name := rest[..i];
        assert rest == name + " " + rest[i + 1..];
        assert text == pre + rest;
        assert pre + name + " " + NOT_SET <= text;
      }
    }
    forall name | name in kinds && IsTri(kinds[name]) && ' ' !in name && pre + name + " " + NOT_SET <= text
      ensures ReadComment(pre, kinds, text) == SetTri(name, NO)
    {
      NotSetIsRead(pre, kinds, name, text[|pre + name + " " + NOT_SET|..]);
      assert text == pre + name + " " + NOT_SET + text[|pre + name + " " + NOT_SET|..];
    }
  }

  lemma Inside(before: string, text: string, after: string)
    ensures
      var b, i, n := before + text + after, |before|, |text|;
      b[i..i + n] == text && (forall k :: i <= k < i + n ==> b[k] == text[k - i]) && (after != [] ==> b[i + n] == after[0])
  {
  }

  lemma NameIsRead(kinds: map<string, SymKind>, name: string, tail: string)
    requires name in kinds && IsTri(kinds[name]) && ' ' !in name && NOT_SET <= tail
    ensures ReadNotSet(kinds, name + " " + tail) == SetTri(name, NO)
  {
    var rest := name + " " + tail;
    Inside(name, " ", tail);
    IndexOfIs(rest, ' ', |name|);
    assert rest[|name| + 1..] == tail && rest[..|name|] == name;
  }

  lemma NotSetIsRead(pre: string, kinds: map<string, SymKind>, name: string, tail: string)
    requires name in kinds && IsTri(kinds[name]) && ' ' !in name
    ensures ReadComment(pre, kinds, pre + name + " " + NOT_SET + tail) == SetTri(name, NO)
  {
    NameIsRead(kinds, name, NOT_SET + tail);
    hide ReadNotSet;
    var rest := name + " " + (NOT_SET + tail);
    assert pre + name + " " + NOT_SET + tail == pre + rest;
    assert (pre + rest)[|pre|..] == rest;
  }

  /** What is read is what the line means, unless it is a lone `#` without a
      newline and the buffer still holds "NAME is not set" from its third character
      on. */
  lemma ReadBufferIsReadLine(pre: string, kinds: map<string, SymKind>, b: seq<char>)
    requires Terminated(b, 0) && (b[0] == '#' ==> Terminated(b, 2))
    ensures
      ReadBuffer(pre, kinds, b) == ReadLine(pre, kinds, CStr(b, 0))
      <==> !(CStr(b, 0) == "#" && SaysNotSet(pre, kinds, CStr(b, 2)))
  {
    hide CStr, ReadNotSet, SaysNotSet;
    CStrHead(b, 0);
    var s := CStr(b, 0);
    if b[0] == '#' && s != "#" {
      assert |s| == 1 ==> s == "#";
      CStrFrom(b, 0, 2);
    }
    if s == "#" { NotSetExactly(pre, kinds, CStr(b, 2)); }
  }

  lemma StringAt(before: string, text: string, after: string)
    requires forall k :: 0 <= k < |text| ==> text[k] != NUL
    ensures var b := before + text + [NUL] + after; Terminated(b, |before|) && CStr(b, |before|) == text
  {
    hide CStr;
    var b, i, n := before + text + [NUL] + after, |before|, |text|;
    Inside(before, text, [NUL] + after);
    assert b == before + text + ([NUL] + after);
    CStrIs(b, i, n);
  }

  lemma SameTail(a: string, b: string, tail: string)
    requires |a| == |b|
    ensures (a + tail)[|a|..] == (b + tail)[|b|..]
  {
  }

  /** The buffer with a line, and the same overwritten by a lone `#` and its NUL. */
  lemma Overwritten(text: string)
    requires forall k :: 0 <= k < |text| ==> text[k] != NUL
    ensures
      var line, b := "x " + text + [NUL], "#" + [NUL] + text + [NUL];
      && Terminated(line, 0) && CStr(line, 0) == "x " + text && |line| == |b| && line[2..] == b[2..]
      && Terminated(b, 0) && CStr(b, 0) == "#" && Terminated(b, 2) && CStr(b, 2) == text
  {
    hide CStr;
    StringAt("", "x " + text, []);
    StringAt("", "#", text + [NUL]);
    StringAt("#" + [NUL], text, []);
    var line, b := "x " + text + [NUL], "#" + [NUL] + text + [NUL];
    assert line == "" + ("x " + text) + [NUL] + [] && b == "" + "#" + [NUL] + (text + [NUL]);
    assert b == ("#" + [NUL]) + text + [NUL] + [];
    SameTail("x ", "#" + [NUL], text + [NUL]);
    assert line == "x " + (text + [NUL]) && b == "#" + [NUL] + (text + [NUL]);
  }

  /** A line that says nothing, as it does not begin with the prefix; overwritten by
      a lone `#` and its NUL, the buffer says that the symbol is n. */
  lemma LoneHashReadsOldLine(pre: string, kinds: map<string, SymKind>, name: string)
    requires name in kinds && IsTri(kinds[name]) && ' ' !in name && NUL !in name && NUL !in pre && pre != [] && pre[0] != 'x'
    ensures
      var text := pre + name + " " + NOT_SET + "\n";
      var line, b := "x " + text + [NUL], "#" + [NUL] + text + [NUL];
      && Terminated(line, 0) && CStr(line, 0) == "x " + text && ReadBuffer(pre, kinds, line) == Ignored
      && Terminated(b, 0) && Terminated(b, 2) && CStr(b, 0) == "#" && ReadLine(pre, kinds, "#") == Ignored
      && line[2..] == b[2..] && ReadBuffer(pre, kinds, b) == SetTri(name, NO)
  {
    var text := pre + name + " " + NOT_SET + "\n";
    assert forall k :: 0 <= k < |text| ==> text[k] != NUL;
    Overwritten(text);
    hide CStr, ReadNotSet, ReadComment;
    NotSetIsRead(pre, kinds, name, "\n");
    assert ("x " + text)[0] == 'x';
  }

  /** The prefix "CONFIG_" and a bool symbol A. */
  lemma LoneHashReadsOldA()
    ensures
      var pre, kinds, b := "CONFIG_", map["A" := Boolean], "#" + [NUL] + ("CONFIG_" + "A" + " " + NOT_SET + "\n") + [NUL];
      && Terminated(b, 0) && Terminated(b, 2) && CStr(b, 0) == "#"
      && ReadLine(pre, kinds, CStr(b, 0)) == Ignored && ReadBuffer(pre, kinds, b) == SetTri("A", NO)
  {
    hide CStr, ReadBuffer, ReadLine;
    LoneHashReadsOldLine("CONFIG_", map["A" := Boolean], "A");
  }

  /** "# NAME is not set". */
  method ReadCommentInPlace(pre: string, kinds: map<string, SymKind>, line: array<char>) returns (r: Reading)
    requires Terminated(line[..], 2) && NUL !in pre
    modifies line
    ensures r == ReadComment(pre, kinds, old(CStr(line[..], 2)))
  {
    hide CStr, IndexOf, ReadNotSet;
    var yes := StartsWith(line, 2, pre);
    if !yes {
      return Ignored;
    }
    CStrFrom(line[..], 2, |pre|);
    r := ReadNotSetInPlace(kinds, line, 2 + |pre|);
  }

  /** "NAME=value". */
  method ReadAssignmentInPlace(pre: string, kinds: map<string, SymKind>, line: array<char>) returns (r: Reading)
    requires Terminated(line[..], 0) && pre <= CStr(line[..], 0) && line[0] != '#'
    modifies line
    ensures r == ReadLine(pre, kinds, old(CStr(line[..], 0)))
  {
    hide CStr, IndexOf, CutValue, ReadValue;
    CStrHead(line[..], 0);
    CStrFrom(line[..], 0, |pre|);
    var found, p := SplitAt(line, |pre|, '=');
    if !found {
      return Ignored;
    }
    var name := StrDup(line, |pre|);
    CutLine(line, p);
    if name in kinds {
      r := SetSymVal(line, p, kinds[name], name);
    } else {
      r := Ignored;
    }
  }

  /** Reading a line in the buffer, with NULs written over the separators and
      strings unescaped where they stand. */
  method ReadLineInPlace(pre: string, kinds: map<string, SymKind>, line: array<char>) returns (r: Reading)
    requires Terminated(line[..], 0) && (line[0] == '#' ==> Terminated(line[..], 2)) && NUL !in pre
    modifies line
    ensures r == ReadBuffer(pre, kinds, old(line[..]))
  {
    hide CStr, IndexOf, CutValue, ReadValue;
    CStrHead(line[..], 0);
    if line[0] == '#' {
      r := ReadCommentInPlace(pre, kinds, line);
    } else {
      var yes := StartsWith(line, 0, pre);
      if yes {
        r := ReadAssignmentInPlace(pre, kinds, line);
      } else {
        r := Ignored;
      }
    }
  }
}
