/**
 What a command line says, piece by piece, without a scanner: escapes, quoted parts,
 gaps and letters.  Every text is a sequence of pieces that fit, and the splitter
 returns what they mean.
 */
module ShellGrammar {
  import opened Wrappers
  import opened ShellWords

  // ---------------------------------------------------------------------
  // Between double quotes
  // ---------------------------------------------------------------------

  /** A character between double quotes: as it is, or after a backslash that goes. */
  datatype Unit = Bare(c: char) | Backslashed(c: char)

  function UnitText(u: Unit): string {
    match u
    case Bare(c) => [c]
    case Backslashed(c) => ['\\', c]
  }

  function UnitsText(us: seq<Unit>): string {
    if us == [] then "" else UnitText(us[0]) + UnitsText(us[1..])
  }

  function UnitsValue(us: seq<Unit>): string {
    if us == [] then "" else [us[0].c] + UnitsValue(us[1..])
  }

  /** Only a quote or a backslash is escaped; before anything else a backslash stands for itself. */
  predicate UnitFits(u: Unit, next: char) {
    match u
    case Backslashed(c) => c == '"' || c == '\\'
    case Bare(c) => c != '"' && (c == '\\' ==> next != '"' && next != '\\')
  }

  predicate UnitsFit(us: seq<Unit>) {
    us == [] || (UnitFits(us[0], (UnitsText(us[1..]) + "\"")[0]) && UnitsFit(us[1..]))
  }

  /** Units that fit, and a closing quote. */
  ghost predicate Closes(t: string, us: seq<Unit>, rest: string) {
    UnitsFit(us) && t == UnitsText(us) + "\"" + rest
  }

  lemma {:induction false} UnitsAreRead(us: seq<Unit>, rest: string)
    requires UnitsFit(us)
    ensures DoubleQuoted(UnitsText(us) + "\"" + rest) == Some(Quoted(UnitsValue(us), rest))
  {
    var t := UnitsText(us) + "\"" + rest;
    if us == [] {
      assert t == "\"" + rest;
    } else {
      var tail := UnitsText(us[1..]) + "\"" + rest;
      UnitsAreRead(us[1..], rest);
      assert t == UnitText(us[0]) + tail;
      assert t[|UnitText(us[0])|..] == tail && tail[0] == (UnitsText(us[1..]) + "\"")[0];
    }
  }

  lemma OneMoreUnit(u: Unit, us: seq<Unit>, tail: string, rest: string)
    requires Closes(tail, us, rest) && UnitFits(u, tail[0])
    ensures Closes(UnitText(u) + tail, [u] + us, rest) && UnitsValue([u] + us) == [u.c] + UnitsValue(us)
  {
    assert ([u] + us)[1..] == us;
    assert (UnitsText(us) + "\"")[0] == tail[0];
  }

  lemma {:induction false} ReadIsUnits(t: string) returns (us: seq<Unit>)
    requires DoubleQuoted(t).Some?
    ensures var q := DoubleQuoted(t).value; Closes(t, us, q.rest) && UnitsValue(us) == q.text
    decreases |t|
  {
    hide Closes, UnitsText, UnitsFit;
    if t[0] == '\\' && |t| > 1 && t[1] in "\"\\" {
      us := ReadIsUnits(t[2..]);
      var u := Backslashed(t[1]);
      OneMoreUnit(u, us, t[2..], DoubleQuoted(t).value.rest);
      us := [u] + us;
      assert t == UnitText(u) + t[2..];
    } else if t[0] == '"' {
      us := [];
      NoUnits(t[1..]);
      assert t == "\"" + t[1..];
    } else {
      us := ReadIsUnits(t[1..]);
      var u := Bare(t[0]);
      OneMoreUnit(u, us, t[1..], DoubleQuoted(t).value.rest);
      us := [u] + us;
      assert t == UnitText(u) + t[1..];
    }
  }

  lemma NoUnits(rest: string)
    ensures Closes("\"" + rest, [], rest) && UnitsValue([]) == ""
  {
  }

  /** After an opening double quote a text closes in at most one way, and is then read as its units' characters. */
  lemma DoubleQuotedExactly(t: string, us: seq<Unit>, rest: string)
    ensures DoubleQuoted(t).Some? <==> exists vs, r :: Closes(t, vs, r)
    ensures Closes(t, us, rest) ==> DoubleQuoted(t) == Some(Quoted(UnitsValue(us), rest))
  {
    if DoubleQuoted(t).Some? {
      var vs := ReadIsUnits(t);
      assert Closes(t, vs, DoubleQuoted(t).value.rest);
    }
    forall vs, r | Closes(t, vs, r) ensures DoubleQuoted(t) == Some(Quoted(UnitsValue(vs), r)) {
      UnitsAreRead(vs, r);
    }
  }

  // ---------------------------------------------------------------------
  // Pieces of a text
  // ---------------------------------------------------------------------

  datatype Piece = Escape(c: char) | Single(body: string) | Double(units: seq<Unit>) | Gap(c: char) | Letter(c: char)

  function PieceText(p: Piece): string {
    match p
    case Escape(c) => ['\\', c]
    case Single(body) => "'" + body + "'"
    case Double(units) => "\"" + UnitsText(units) + "\""
    case Gap(c) => [c]
    case Letter(c) => [c]
  }

  function PiecesText(ps: seq<Piece>): string {
    if ps == [] then "" else PieceText(ps[0]) + PiecesText(ps[1..])
  }

  /** What a piece adds to its word. */
  function PieceValue(p: Piece): string {
    match p
    case Escape(c) => [c]
    case Single(body) => body
    case Double(units) => UnitsValue(units)
    case Gap(_) => ""
    case Letter(c) => [c]
  }

  /** A backslash at the very end and a quote without a closing one are letters. */
  ghost predicate PieceFits(p: Piece, rest: string) {
    match p
    case Escape(_) => true
    case Single(body) => '\'' !in body
    case Double(units) => UnitsFit(units)
    case Gap(c) => IsSpace(c)
    case Letter(c) =>
      && !IsSpace(c)
      && (c == '\\' ==> rest == "")
      && (c == '\'' ==> '\'' !in rest)
      && (c == '"' ==> forall us, r :: !Closes(rest, us, r))
  }

  ghost predicate PiecesFit(ps: seq<Piece>) {
    ps == [] || (PieceFits(ps[0], PiecesText(ps[1..])) && PiecesFit(ps[1..]))
  }

  /** Gaps separate; everything else joins the word under way, or begins one. */
  function Meaning(ps: seq<Piece>, current: string, inWord: bool): seq<string> {
    if ps == [] then (if inWord then [current] else [])
    else if ps[0].Gap? then (if inWord then [current] else []) + Meaning(ps[1..], "", false)
    else Meaning(ps[1..], current + PieceValue(ps[0]), true)
  }

  lemma PieceIsRead(p: Piece, rest: string, current: string, inWord: bool)
    requires PieceFits(p, rest)
    ensures Scan(PieceText(p) + rest, current, inWord) ==
      if p.Gap? then (if inWord then [current] else []) + Scan(rest, "", false)
      else Scan(rest, current + PieceValue(p), true)
  {
    hide Scan, DoubleQuoted, IsSpace, UnitsFit, UnitsText, UnitsValue, Closes, Find;
    var t := PieceText(p) + rest;
    assert t[|PieceText(p)|..] == rest && t[0..] == t;
    match p
    case Escape(_) => StepEscape(t, 0, current, inWord);
    case Single(body) => ScanSingleQuoted(body, rest, current, inWord);
    case Double(units) =>
      assert t[1..] == UnitsText(units) + "\"" + rest;
      UnitsAreRead(units, rest);
      StepDouble(t, 0, current, inWord);
    case Gap(_) =>
      SpaceIsNoQuote();
      StepOther(t, 0, current, inWord);
    case Letter(_) =>
      DoubleQuotedExactly(rest, [], "");
      StepOther(t, 0, current, inWord);
  }

  lemma SpaceIsNoQuote()
    ensures !IsSpace('\\') && !IsSpace('\'') && !IsSpace('"')
  {
  }

  lemma {:induction false} PiecesAreRead(ps: seq<Piece>, current: string, inWord: bool)
    requires PiecesFit(ps)
    ensures Scan(PiecesText(ps), current, inWord) == Meaning(ps, current, inWord)
  {
    hide Scan;
    if ps == [] {
      StepEnd("", current, inWord);
      assert ""[|""|..] == "";
    } else {
      PieceIsRead(ps[0], PiecesText(ps[1..]), current, inWord);
      PiecesAreRead(ps[1..], "", false);
      PiecesAreRead(ps[1..], current + PieceValue(ps[0]), true);
    }
  }

  /** The first piece of a text. */
  lemma FirstPiece(t: string) returns (p: Piece, rest: string)
    requires t != ""
    ensures t == PieceText(p) + rest && PieceFits(p, rest) && |rest| < |t|
  {
    hide DoubleQuoted, IsSpace, UnitsFit, UnitsText, UnitsValue, Find;
    rest := t[1..];
    if t[0] == '\\' && |t| > 1 {
      p, rest := Escape(t[1]), t[2..];
    } else if t[0] == '\'' && '\'' in t[1..] {
      p, rest := SinglePiece(t[1..]);
      assert t == "'" + t[1..];
    } else if t[0] == '"' && DoubleQuoted(t[1..]).Some? {
      var units := ReadIsUnits(t[1..]);
      p, rest := Double(units), DoubleQuoted(t[1..]).value.rest;
      assert t == "\"" + t[1..];
    } else if IsSpace(t[0]) {
      p := Gap(t[0]);
    } else {
      p := Letter(t[0]);
      DoubleQuotedExactly(t[1..], [], "");
    }
  }

  lemma SinglePiece(t: string) returns (p: Piece, rest: string)
    requires '\'' in t
    ensures "'" + t == PieceText(p) + rest && PieceFits(p, rest) && |rest| < |t|
  {
    var k := Find(t, '\'');
    p, rest := Single(t[..k]), t[k + 1..];
    assert t == t[..k] + "'" + rest;
  }

  lemma {:induction false} TextHasPieces(t: string) returns (ps: seq<Piece>)
    ensures PiecesFit(ps) && PiecesText(ps) == t
    decreases |t|
  {
    ps := [];
    if t != "" {
      var p, rest := FirstPiece(t);
      ps := TextHasPieces(rest);
      ps := [p] + ps;
    }
  }

  /** Every text is a sequence of pieces that fit, and splitting it gives what these mean. */
  lemma SplitsByPieces(t: string)
    ensures exists ps :: PiecesFit(ps) && PiecesText(ps) == t
    ensures forall ps :: PiecesFit(ps) && PiecesText(ps) == t ==> Words(t) == Meaning(ps, "", false)
  {
    var some := TextHasPieces(t);
    forall ps | PiecesFit(ps) && PiecesText(ps) == t ensures Words(t) == Meaning(ps, "", false) {
      PiecesAreRead(ps, "", false);
    }
  }

  // ---------------------------------------------------------------------
  // Text between double quotes that needs no escapes
  // ---------------------------------------------------------------------

  /** No backslash stands last or before another one. */
  predicate LoneBackslashes(v: string) {
    forall i :: 0 <= i < |v| && v[i] == '\\' ==> i + 1 < |v| && v[i + 1] != '\\'
  }

  function AllBare(v: string): seq<Unit> {
    seq(|v|, i requires 0 <= i < |v| => Bare(v[i]))
  }

  lemma {:induction false} BareUnits(v: string)
    requires '"' !in v && LoneBackslashes(v)
    ensures UnitsFit(AllBare(v)) && UnitsText(AllBare(v)) == v && UnitsValue(AllBare(v)) == v
  {
    if v != "" {
      assert '"' !in v[1..] && LoneBackslashes(v[1..]) by {
        forall i | 0 <= i < |v[1..]| && v[1..][i] == '\\' ensures i + 1 < |v[1..]| && v[1..][i + 1] != '\\' {
          assert v[i + 1] == '\\';
        }
      }
      BareUnits(v[1..]);
      assert AllBare(v)[1..] == AllBare(v[1..]);
      assert v[0] == '\\' ==> v[1] != '\\' && v[1] != '"';
    }
  }

  lemma LoneInTail(v: string)
    requires v != "" && !LoneBackslashes(v) && (v[0] == '\\' ==> |v| > 1 && v[1] != '\\')
    ensures !LoneBackslashes(v[1..])
  {
    var i :| 0 <= i < |v| && v[i] == '\\' && (i + 1 == |v| || v[i + 1] == '\\');
    assert v[1..][i - 1] == '\\';
  }

  /** Otherwise a backslash is lost, or the closing quote is no longer one. */
  lemma {:induction false} BackslashLost(v: string)
    requires '"' !in v && !LoneBackslashes(v)
    ensures var q := DoubleQuoted(v + "\""); q.None? || |q.value.text| + |q.value.rest| < |v|
    decreases |v|
  {
    var t := v + "\"";
    assert t[0] == v[0] && t[1..] == v[1..] + "\"";
    if v[0] == '\\' && |v| == 1 {
      assert t[2..] == "";
    } else if v[0] == '\\' && v[1] == '\\' {
      if DoubleQuoted(t[2..]).Some? {
        QuotedNoLonger(t[2..]);
      }
    } else {
      LoneInTail(v);
      BackslashLost(v[1..]);
    }
  }

  /** The word under way stays the beginning of the first word. */
  lemma {:induction false} FirstWordBegins(t: string, current: string)
    ensures Scan(t, current, true) != [] && current <= Scan(t, current, true)[0]
    decreases |t|
  {
    if t == "" {
    } else if t[0] == '\\' && |t| > 1 {
      FirstWordBegins(t[2..], current + [t[1]]);
    } else if t[0] == '\'' && Find(t[1..], '\'') != -1 {
      var k := Find(t[1..], '\'');
      FirstWordBegins(t[k + 2..], current + t[1..k + 1]);
    } else if t[0] == '"' && DoubleQuoted(t[1..]).Some? {
      var q := DoubleQuoted(t[1..]).value;
      FirstWordBegins(q.rest, current + q.text);
    } else if !IsSpace(t[0]) {
      FirstWordBegins(t[1..], current + [t[0]]);
    }
  }

  /**
   A text without double quotes, put between them, is read as itself wherever it
   stands if and only if none of its backslashes stands last or before another one:
   a backslash before an ordinary character stays.
   */
  lemma DoubleQuotesKeepExactly(v: string)
    requires '"' !in v
    ensures Prints("\"" + v + "\"", v) <==> LoneBackslashes(v)
  {
    if LoneBackslashes(v) {
      BareUnits(v);
      var p := Double(AllBare(v));
      assert PieceText(p) == "\"" + v + "\"";
      forall rest: string ensures Scan("\"" + v + "\"" + rest, "", false) == Scan(rest, v, true) {
        PieceIsRead(p, rest, "", false);
        assert "" + v == v;
      }
    } else {
      NotKept(v);
      assert "\"" + v + "\"" + "" == "\"" + v + "\"";
      assert Scan("", v, true) == [v];
    }
  }

  lemma NotKept(v: string)
    requires '"' !in v && !LoneBackslashes(v)
    ensures Scan("\"" + v + "\"", "", false) != [v]
  {
    hide LoneBackslashes;
    var t := "\"" + v + "\"";
    assert t[1..] == v + "\"";
    BackslashLost(v);
    var q := DoubleQuoted(v + "\"");
    if q.Some? {
      hide Scan;
      WordsNoLonger(q.value.rest, q.value.text, true);
      StepDouble(t, 0, "", false);
      assert t[0..] == t && "" + q.value.text == q.value.text;
      TooLong(Scan(t, "", false), v, |q.value.text| + |q.value.rest|);
    } else {
      StepOther(t, 0, "", false);
      assert t[0..] == t && "" + [t[0]] == "\"";
      FirstWordBegins(v + "\"", "\"");
      assert v == "" || v[0] != '"';
    }
  }

  // ---------------------------------------------------------------------
  // Which quotes the quoter takes
  // ---------------------------------------------------------------------

  lemma {:induction false} ReplaceNoShorter(s: string, c: char, sub: string)
    requires sub != ""
    ensures |Replace(s, c, sub)| >= |s|
  {
    if s != "" {
      ReplaceNoShorter(s[1..], c, sub);
    }
  }

  /** A word stays as it is if it is not empty and nothing in it is special; else no special character stands bare. */
  lemma QuoteChooses(v: string)
    ensures Quote(v) == v <==> v != "" && forall c :: c in v ==> !IsSpace(c) && c !in "\"'\\|&;<>()$`"
    ensures Quote(v) != v ==>
      exists body :: Quote(v) == if '"' in v && '\'' !in v then "'" + body + "'" else "\"" + body + "\""
  {
    if v == "" || NeedsQuoting(v) {
      if '"' in v && '\'' !in v {
        assert Quote(v) == "'" + v + "'" && |Quote(v)| == |v| + 2;
      } else {
        QuoteDouble(v);
        ReplaceNoShorter(v, '\\', "\\\\");
        ReplaceNoShorter(Replace(v, '\\', "\\\\"), '"', "\\\"");
        assert |Quote(v)| >= |v| + 2;
      }
    }
  }
}
