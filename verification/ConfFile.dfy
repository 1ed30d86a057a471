/** The written configuration as the text of a file, and what is read from it. */
module ConfFile {
  import opened Options
  import opened Tristates
  import opened Exprs
  import opened Calculation
  import opened Menus
  import opened ConfWrite
  import ConfText

  function LineText(pre: string, names: Sym -> string, l: Line): string {
    ConfText.WriteSymbol(pre, l.sym.kind, names(l.sym), TriText(l.value))
  }

  function FileText(pre: string, names: Sym -> string, ls: seq<Line>): string {
    if ls == [] then [] else LineText(pre, names, ls[0]) + FileText(pre, names, ls[1..])
  }

  /** Reading a file line by line. */
  function ReadFile(pre: string, kinds: map<string, SymKind>, text: string): seq<ConfText.Reading>
    decreases |text|
  {
    if text == [] then []
    else
      var first := ConfText.FirstLine(text);
      [ConfText.ReadLine(pre, kinds, first)] + ReadFile(pre, kinds, text[|first|..])
  }

  /** What the lines say. */
  function Readings(names: Sym -> string, ls: seq<Line>): seq<ConfText.Reading> {
    if ls == [] then [] else [ConfText.SetTri(names(ls[0].sym), ls[0].value)] + Readings(names, ls[1..])
  }

  /** The symbol is known by its name, and a bool is not m. */
  ghost predicate Readable(kinds: map<string, SymKind>, names: Sym -> string, l: Line) {
    && IsTriKind(l.sym) && (l.sym.kind.Boolean? ==> l.value != MOD)
    && ConfText.ValidName(names(l.sym)) && names(l.sym) in kinds && kinds[names(l.sym)] == l.sym.kind
  }

  /** A text with its only newline at the end is the first line of any file that
      begins with it. */
  lemma FirstLineOf(body: string, rest: string)
    requires forall k :: 0 <= k < |body| ==> body[k] != '\n'
    ensures ConfText.FirstLine(body + "\n" + rest) == body + "\n"
  {
    ConfText.IndexOfAfter(body, '\n', rest);
    assert body + ['\n'] + rest == body + "\n" + rest;
    assert (body + "\n" + rest)[..|body| + 1] == body + "\n";
  }

  /** Every line is a line of the file. */
  lemma LineIsLine(pre: string, names: Sym -> string, l: Line) returns (body: string)
    requires ConfText.ValidName(pre) && ConfText.ValidName(names(l.sym)) && IsTriKind(l.sym)
    ensures LineText(pre, names, l) == body + "\n" && forall k :: 0 <= k < |body| ==> body[k] != '\n'
  {
    var name := names(l.sym);
    if l.value == NO {
      body := "# " + pre + name + " " + ConfText.NOT_SET;
    } else {
      body := pre + name + "=" + TriText(l.value);
    }
  }

  /** Whatever lines are written, reading the file says just what they say. */
  lemma {:induction false} FileRoundTrip(pre: string, kinds: map<string, SymKind>, names: Sym -> string, ls: seq<Line>)
    requires ConfText.ValidName(pre) && forall l :: l in ls ==> Readable(kinds, names, l)
    ensures ReadFile(pre, kinds, FileText(pre, names, ls)) == Readings(names, ls)
  {
    if ls != [] {
      hide LineText;
      assert ls[0] in ls;
      LineReadBack(pre, kinds, names, ls[0]);
      var body := LineIsLine(pre, names, ls[0]);
      ReadFirst(pre, kinds, body, FileText(pre, names, ls[1..]));
      FileRoundTrip(pre, kinds, names, ls[1..]);
    }
  }

  lemma LineReadBack(pre: string, kinds: map<string, SymKind>, names: Sym -> string, l: Line)
    requires ConfText.ValidName(pre) && Readable(kinds, names, l)
    ensures ConfText.ReadLine(pre, kinds, LineText(pre, names, l)) == ConfText.SetTri(names(l.sym), l.value)
  {
    ConfText.RoundTrip(pre, kinds, names(l.sym), TriText(l.value));
  }

  /** The first line is read, then the rest. */
  lemma ReadFirst(pre: string, kinds: map<string, SymKind>, body: string, rest: string)
    requires forall k :: 0 <= k < |body| ==> body[k] != '\n'
    ensures ReadFile(pre, kinds, body + "\n" + rest) == [ConfText.ReadLine(pre, kinds, body + "\n")] + ReadFile(pre, kinds, rest)
  {
    hide ConfText.ReadLine, ConfText.FirstLine;
    FirstLineOf(body, rest);
    assert (body + "\n" + rest)[|body| + 1..] == rest;
  }

  /** So from the file written for a calculated configuration exactly the values
      of the symbols that asked for a line are read. */
  lemma WrittenIsReadBack(cfg: Config, user: User, env: Env, row: seq<Menu>,
                          pre: string, kinds: map<string, SymKind>, names: Sym -> string)
    requires WellFormed(cfg) && Solves(cfg, user, env) && ConfText.ValidName(pre)
    requires forall s :: s in cfg.info ==>
      ConfText.ValidName(names(s)) && names(s) in kinds && kinds[names(s)] == s.kind
    ensures
      var ls := LinesOf(cfg, user, env, row, {});
      && ReadFile(pre, kinds, FileText(pre, names, ls)) == Readings(names, ls)
      && SymsOfLines(ls) == Wanted(cfg, user, env, row, {})
      && forall l :: l in ls ==> l.value == env.tri(l.sym)
  {
    var ls := LinesOf(cfg, user, env, row, {});
    OneLinePerSymbol(cfg, user, env, row, {});
    forall l | l in ls
      ensures Readable(kinds, names, l) && l.value == env.tri(l.sym)
    {
      assert l.sym in SymsOfLines(ls);
      if l.sym.kind.Boolean? { NoModWithoutModules(cfg, user, env, l.sym); }
    }
    FileRoundTrip(pre, kinds, names, ls);
  }
}
