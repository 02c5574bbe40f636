/**
 The shell word splitter, the quoter that prints one word for it, and the raw
 command line built from quoted words.  `Words` is what the splitter computes,
 written on the remaining text; the laws below say that printing and splitting
 undo each other.
 */
module ShellWords {
  import opened Wrappers

  /** Python's `str.isspace` of one character, which is also what `\s` matches. */
  predicate IsSpace(c: char) {
    || '\U{0009}' <= c <= '\U{000D}'
    || '\U{001C}' <= c <= '\U{0020}'
    || c == '\U{0085}' || c == '\U{00A0}' || c == '\U{1680}'
    || '\U{2000}' <= c <= '\U{200A}'
    || c == '\U{2028}' || c == '\U{2029}' || c == '\U{202F}' || c == '\U{205F}' || c == '\U{3000}'
  }

  /** Position of the first `c` in `s`, -1 without one (`str.find`). */
  function Find(s: string, c: char): (k: int)
    ensures -1 <= k < |s|
    ensures k == -1 <==> c !in s
    ensures k != -1 ==> s[k] == c && c !in s[..k]
  {
    if s == "" then -1
    else if s[0] == c then 0
    else
      var k := Find(s[1..], c);
      assert s == [s[0]] + s[1..];
      if k == -1 then -1 else
        assert s[..k + 1] == [s[0]] + s[1..][..k];
        k + 1
  }

  lemma {:induction false} FindFirst(v: string, rest: string, c: char)
    requires c !in v
    ensures Find(v + [c] + rest, c) == |v|
  {
    var s := v + [c] + rest;
    if v == "" {
      assert s[0] == c;
    } else {
      assert s[1..] == v[1..] + [c] + rest;
      FindFirst(v[1..], rest, c);
    }
  }

  // ---------------------------------------------------------------------
  // What splitting computes
  // ---------------------------------------------------------------------

  datatype Quoted = Quoted(text: string, rest: string)

  /** Text after an opening double quote: the unescaped contents and what follows the closing quote. */
  function DoubleQuoted(t: string): (r: Option<Quoted>)
    ensures r.Some? ==> |r.value.rest| < |t|
    decreases |t|
  {
    if t == "" then None
    else if t[0] == '\\' && |t| > 1 && t[1] in "\"\\" then Prefixed([t[1]], DoubleQuoted(t[2..]))
    else if t[0] == '"' then Some(Quoted("", t[1..]))
    else Prefixed([t[0]], DoubleQuoted(t[1..]))
  }

  function Prefixed(s: string, q: Option<Quoted>): Option<Quoted> {
    if q.Some? then Some(Quoted(s + q.value.text, q.value.rest)) else None
  }

  lemma PrefixedTwice(s: string, t: string, q: Option<Quoted>)
    ensures Prefixed(s, Prefixed(t, q)) == Prefixed(s + t, q)
    ensures Prefixed("", q) == q
  {
    if q.Some? {
      assert s + (t + q.value.text) == s + t + q.value.text;
      assert "" + q.value.text == q.value.text;
    }
  }

  /** The words of `t` when `current` (if `inWord`) is the word already begun. */
  function Scan(t: string, current: string, inWord: bool): seq<string>
    decreases |t|
  {
    if t == "" then
      if inWord then [current] else []
    else if t[0] == '\\' && |t| > 1 then
      Scan(t[2..], current + [t[1]], true)
    else if t[0] == '\'' && Find(t[1..], '\'') != -1 then
      var k := Find(t[1..], '\'');
      Scan(t[k + 2..], current + t[1..k + 1], true)
    else if t[0] == '"' && DoubleQuoted(t[1..]).Some? then
      var q := DoubleQuoted(t[1..]).value;
      Scan(q.rest, current + q.text, true)
    else if IsSpace(t[0]) then
      (if inWord then [current] else []) + Scan(t[1..], "", false)
    else
      Scan(t[1..], current + [t[0]], true)
  }

  function Words(t: string): seq<string> {
    Scan(t, "", false)
  }

  /** The words from position `i` on. */
  function ScanFrom(text: string, i: nat, current: string, inWord: bool): seq<string>
    requires i <= |text|
  {
    Scan(text[i..], current, inWord)
  }

  lemma StepEscape(text: string, i: nat, current: string, inWord: bool)
    requires i + 1 < |text| && text[i] == '\\'
    ensures ScanFrom(text, i, current, inWord) == ScanFrom(text, i + 2, current + [text[i + 1]], true)
  {
    assert text[i..][2..] == text[i + 2..];
  }

  lemma StepSingle(text: string, i: nat, current: string, inWord: bool, end: nat)
    requires i < |text| && text[i] == '\'' && Find(text[i + 1..], '\'') == end - (i + 1)
    requires i + 1 <= end < |text|
    ensures ScanFrom(text, i, current, inWord) == ScanFrom(text, end + 1, current + text[i + 1..end], true)
  {
    var t := text[i..];
    assert t[1..] == text[i + 1..];
    assert t[1..end - i] == text[i + 1..end];
    assert t[end - i + 1..] == text[end + 1..];
  }

  lemma StepDouble(text: string, i: nat, current: string, inWord: bool)
    requires i < |text| && text[i] == '"' && DoubleQuoted(text[i + 1..]).Some?
    ensures var q := DoubleQuoted(text[i + 1..]).value;
      ScanFrom(text, i, current, inWord) == Scan(q.rest, current + q.text, true)
  {
    assert text[i..][1..] == text[i + 1..];
  }

  /** No escape, no closed quote: the character separates words or joins the current one. */
  lemma StepOther(text: string, i: nat, current: string, inWord: bool)
    requires i < |text|
    requires text[i] == '\\' ==> i + 1 == |text|
    requires text[i] == '\'' ==> Find(text[i + 1..], '\'') == -1
    requires text[i] == '"' ==> DoubleQuoted(text[i + 1..]).None?
    ensures ScanFrom(text, i, current, inWord) ==
      if IsSpace(text[i]) then (if inWord then [current] else []) + ScanFrom(text, i + 1, "", false)
      else ScanFrom(text, i + 1, current + [text[i]], true)
  {
    assert text[i..][1..] == text[i + 1..];
  }

  lemma StepEnd(text: string, current: string, inWord: bool)
    ensures ScanFrom(text, |text|, current, inWord) == if inWord then [current] else []
  {
  }

  /** `split_shell_words`: the scanner with its nested loops. */
  method SplitShellWords(text: string) returns (words: seq<string>)
    ensures words == Words(text)
  {
    hide Scan, DoubleQuoted, IsSpace;
    words := [];
    var current, inWord := "", false;
    var n := |text|;
    var i := 0;
    assert text[0..] == text;
    while i < n
      invariant 0 <= i <= n
      invariant words + ScanFrom(text, i, current, inWord) == Words(text)
    {
      var ch := text[i];
      if ch == '\\' && i + 1 < n {
        StepEscape(text, i, current, inWord);
        current := current + [text[i + 1]];
        inWord := true;
        i := i + 2;
        continue;
      }
      if ch == '\'' {
        var k := Find(text[i + 1..], '\'');
        if k != -1 {
          var end := i + 1 + k;
          StepSingle(text, i, current, inWord, end);
          current := current + text[i + 1..end];
          inWord := true;
          i := end + 1;
          continue;
        }
      } else if ch == '"' {
        var buf, j, closed := ReadDoubleQuoted(text, i + 1);
        if closed {
          StepDouble(text, i, current, inWord);
          current := current + buf;
          inWord := true;
          i := j + 1;
          continue;
        }
      }
      StepOther(text, i, current, inWord);
      if IsSpace(ch) {
        if inWord {
          words := words + [current];
        }
        current := "";
        inWord := false;
      } else {
        current := current + [ch];
        inWord := true;
      }
      i := i + 1;
    }
    StepEnd(text, current, inWord);
    if inWord {
      words := words + [current];
    }
  }

  /** The inner loop: reads from just after an opening double quote. */
  method ReadDoubleQuoted(text: string, start: nat) returns (buf: string, j: nat, closed: bool)
    requires start <= |text|
    ensures start <= j <= |text|
    ensures closed <==> DoubleQuoted(text[start..]).Some?
    ensures closed ==> j < |text| && DoubleQuoted(text[start..]).value == Quoted(buf, text[j + 1..])
  {
    buf := "";
    j := start;
    closed := false;
    PrefixedTwice("", "", DoubleQuoted(text[start..]));
    while j < |text|
      invariant start <= j <= |text|
      invariant !closed
      invariant DoubleQuoted(text[start..]) == Prefixed(buf, DoubleQuoted(text[j..]))
    {
      var c := text[j];
      assert text[j..][0] == c && text[j..][1..] == text[j + 1..];
      if c == '\\' && j + 1 < |text| && text[j + 1] in "\"\\" {
        assert text[j..][1] == text[j + 1] && text[j..][2..] == text[j + 2..];
        PrefixedTwice(buf, [text[j + 1]], DoubleQuoted(text[j + 2..]));
        buf := buf + [text[j + 1]];
        j := j + 2;
      } else if c == '"' {
        closed := true;
        break;
      } else {
        PrefixedTwice(buf, [c], DoubleQuoted(text[j + 1..]));
        buf := buf + [c];
        j := j + 1;
      }
    }
  }

  // ---------------------------------------------------------------------
  // The printer
  // ---------------------------------------------------------------------

  /** `s` with every `c` replaced by `sub` (`str.replace` of one character). */
  function Replace(s: string, c: char, sub: string): string {
    if s == "" then "" else (if s[0] == c then sub else [s[0]]) + Replace(s[1..], c, sub)
  }

  predicate NeedsQuoting(s: string) {
    exists c :: c in s && (IsSpace(c) || c in "\"'\\|&;<>()$`")
  }

  /** `quote_shell_word`. */
  function Quote(v: string): string {
    if v != "" && !NeedsQuoting(v) then v
    else if '"' !in v then "\"" + Replace(v, '\\', "\\\\") + "\""
    else if '\'' !in v then "'" + v + "'"
    else "\"" + Replace(Replace(v, '\\', "\\\\"), '"', "\\\"") + "\""
  }

  /** A character the splitter copies whatever surrounds it. */
  predicate Plain(c: char) {
    !IsSpace(c) && c !in "\"'\\"
  }

  predicate AllPlain(s: string) {
    forall c :: c in s ==> Plain(c)
  }

  lemma {:induction false} ScanPlain(v: string, rest: string, current: string, inWord: bool)
    requires AllPlain(v)
    ensures Scan(v + rest, current, inWord) == Scan(rest, current + v, inWord || v != "")
  {
    if v == "" {
      assert v + rest == rest && current + v == current;
    } else {
      assert Plain(v[0]);
      assert (v + rest)[0] == v[0] && (v + rest)[1..] == v[1..] + rest;
      ScanPlain(v[1..], rest, current + [v[0]], true);
      assert current + [v[0]] + v[1..] == current + v;
    }
  }

  lemma {:induction false} ScanSingleQuoted(v: string, rest: string, current: string, inWord: bool)
    requires '\'' !in v
    ensures Scan("'" + v + "'" + rest, current, inWord) == Scan(rest, current + v, true)
  {
    var t := "'" + v + "'" + rest;
    assert t[1..] == v + "'" + rest;
    FindFirst(v, rest, '\'');
    var k := |v|;
    assert t[1..k + 1] == v && t[k + 2..] == rest;
  }

  function Escaped(v: string): string {
    Replace(Replace(v, '\\', "\\\\"), '"', "\\\"")
  }

  lemma {:induction false} ReplaceConcat(a: string, b: string, c: char, sub: string)
    ensures Replace(a + b, c, sub) == Replace(a, c, sub) + Replace(b, c, sub)
  {
    if a == "" {
      assert a + b == b;
    } else {
      assert (a + b)[1..] == a[1..] + b;
      ReplaceConcat(a[1..], b, c, sub);
    }
  }

  /** Escaping works one character at a time. */
  lemma EscapedCons(v: string)
    requires v != ""
    ensures Escaped(v) == EscapedChar(v[0]) + Escaped(v[1..])
  {
    var first := if v[0] == '\\' then "\\\\" else [v[0]];
    ReplaceConcat(first, Replace(v[1..], '\\', "\\\\"), '"', "\\\"");
    assert Replace(v, '\\', "\\\\") == first + Replace(v[1..], '\\', "\\\\");
    assert first[1..] == if v[0] == '\\' then "\\" else "";
    assert Replace(first[1..], '"', "\\\"") == first[1..];
  }

  lemma {:induction false} ReplaceAbsent(v: string, c: char, sub: string)
    requires c !in v
    ensures Replace(v, c, sub) == v
  {
    if v != "" {
      ReplaceAbsent(v[1..], c, sub);
    }
  }

  lemma {:induction false} ReplaceKeepsAbsent(v: string, c: char, sub: string, d: char)
    requires d !in v && d !in sub
    ensures d !in Replace(v, c, sub)
  {
    if v != "" {
      ReplaceKeepsAbsent(v[1..], c, sub, d);
    }
  }

  lemma {:induction false} DoubleQuotedEscaped(v: string, rest: string)
    ensures DoubleQuoted(Escaped(v) + "\"" + rest) == Some(Quoted(v, rest))
  {
    if v == "" {
      assert Escaped(v) + "\"" + rest == "\"" + rest;
    } else {
      DoubleQuotedEscaped(v[1..], rest);
      DoubleQuotedEscapedCons(v, rest);
    }
  }

  lemma DoubleQuotedEscapedCons(v: string, rest: string)
    requires v != "" && DoubleQuoted(Escaped(v[1..]) + "\"" + rest) == Some(Quoted(v[1..], rest))
    ensures DoubleQuoted(Escaped(v) + "\"" + rest) == Some(Quoted(v, rest))
  {
    hide Escaped, DoubleQuoted, EscapedChar;
    var tail := Escaped(v[1..]) + "\"" + rest;
    EscapedCons(v);
    EscapedCharReadsBack(v[0], tail);
    assert Escaped(v) + "\"" + rest == EscapedChar(v[0]) + tail;
    assert [v[0]] + v[1..] == v;
  }

  function EscapedChar(c: char): string {
    if c in "\"\\" then "\\" + [c] else [c]
  }

  lemma EscapedCharReadsBack(c: char, tail: string)
    ensures DoubleQuoted(EscapedChar(c) + tail) == Prefixed([c], DoubleQuoted(tail))
  {
    var t := EscapedChar(c) + tail;
    assert if c in "\"\\" then t[2..] == tail else t[1..] == tail;
  }

  lemma ScanDoubleQuoted(v: string, rest: string, current: string, inWord: bool)
    ensures Scan("\"" + Escaped(v) + "\"" + rest, current, inWord) == Scan(rest, current + v, true)
  {
    var t := "\"" + Escaped(v) + "\"" + rest;
    assert t[1..] == Escaped(v) + "\"" + rest;
    DoubleQuotedEscaped(v, rest);
  }

  lemma QuotePlain(v: string)
    requires v != "" && !NeedsQuoting(v)
    ensures AllPlain(v)
  {
    forall c | c in v ensures Plain(c) {
      assert !(IsSpace(c) || c in "\"'\\|&;<>()$`");
    }
  }

  lemma QuoteDouble(v: string)
    requires v == "" || NeedsQuoting(v)
    requires '"' in v ==> '\'' in v
    ensures Quote(v) == "\"" + Escaped(v) + "\""
  {
    if '"' !in v {
      ReplaceKeepsAbsent(v, '\\', "\\\\", '"');
      ReplaceAbsent(Replace(v, '\\', "\\\\"), '"', "\\\"");
    }
  }

  /** The printed form of `v` adds exactly `v` to the word under way, wherever it stands. */
  lemma QuoteReadsBack(v: string, rest: string, current: string, inWord: bool)
    ensures Scan(Quote(v) + rest, current, inWord) == Scan(rest, current + v, true)
  {
    if v != "" && !NeedsQuoting(v) {
      QuotePlain(v);
      ScanPlain(v, rest, current, inWord);
    } else if '"' in v && '\'' !in v {
      ScanSingleQuoted(v, rest, current, inWord);
    } else {
      QuoteDouble(v);
      ScanDoubleQuoted(v, rest, current, inWord);
    }
  }

  /** Printing one word and splitting gives the word back, for every string. */
  lemma QuoteThenSplit(v: string)
    ensures Words(Quote(v)) == [v]
  {
    QuoteReadsBack(v, "", "", false);
    assert Quote(v) + "" == Quote(v);
    assert "" + v == v;
  }

  // ---------------------------------------------------------------------
  // Lines of several words
  // ---------------------------------------------------------------------

  /** `sep.join(parts)`. */
  function Join(parts: seq<string>, sep: string): string {
    if parts == [] then ""
    else if |parts| == 1 then parts[0]
    else parts[0] + sep + Join(parts[1..], sep)
  }

  /** `part` prints `word`: it reads as exactly that word wherever a word may begin. */
  ghost predicate Prints(part: string, word: string) {
    forall rest: string :: Scan(part + rest, "", false) == Scan(rest, word, true)
  }

  ghost predicate PrintAll(parts: seq<string>, words: seq<string>) {
    |parts| == |words| && forall i :: 0 <= i < |parts| ==> Prints(parts[i], words[i])
  }

  lemma {:induction false} JoinThenSplit(parts: seq<string>, words: seq<string>)
    requires PrintAll(parts, words)
    ensures Words(Join(parts, " ")) == words
  {
    if parts == [] {
    } else if |parts| == 1 {
      assert Prints(parts[0], words[0]);
      assert parts[0] + "" == parts[0];
      assert Scan("", words[0], true) == [words[0]];
    } else {
      var tail := Join(parts[1..], " ");
      assert PrintAll(parts[1..], words[1..]) by {
        forall i | 0 <= i < |parts[1..]| ensures Prints(parts[1..][i], words[1..][i]) {
          assert Prints(parts[i + 1], words[i + 1]);
        }
      }
      JoinThenSplit(parts[1..], words[1..]);
      assert Prints(parts[0], words[0]);
      assert parts[0] + " " + tail == parts[0] + (" " + tail);
      assert (" " + tail)[1..] == tail;
      assert [words[0]] + words[1..] == words;
    }
  }

  lemma QuotePrints(v: string)
    ensures Prints(Quote(v), v)
  {
    forall rest: string ensures Scan(Quote(v) + rest, "", false) == Scan(rest, v, true) {
      QuoteReadsBack(v, rest, "", false);
      assert "" + v == v;
    }
  }

  /** Any list of strings, quoted one by one and joined by single spaces, splits back to that list. */
  lemma QuoteAllThenSplit(vs: seq<string>)
    ensures Words(Join(seq(|vs|, i requires 0 <= i < |vs| => Quote(vs[i])), " ")) == vs
  {
    var parts := seq(|vs|, i requires 0 <= i < |vs| => Quote(vs[i]));
    forall i | 0 <= i < |parts| ensures Prints(parts[i], vs[i]) {
      QuotePrints(vs[i]);
    }
    JoinThenSplit(parts, vs);
  }

  // ---------------------------------------------------------------------
  // The raw command line of a tool call
  // ---------------------------------------------------------------------

  /** An argument value: a boolean, a list (its items as text), anything else as text. */
  datatype ArgValue = Flag(on: bool) | Items(items: seq<string>) | Text(text: string)

  datatype Arg = Arg(key: string, val: ArgValue)

  /** The word an argument stands for on the command line. */
  function ArgWord(a: Arg): string {
    match a.val
    case Flag(true) => "--" + a.key
    case Flag(false) => "--" + a.key + "=false"
    case Items(items) => "--" + a.key + "=" + Join(items, ",")
    case Text(text) => "--" + a.key + "=" + text
  }

  /** The words a call stands for: path, value when there is one, then the arguments in order. */
  function CommandWords(path: seq<string>, value: Option<string>, args: seq<Arg>): seq<string> {
    path
    + (if value.Some? && value.value != "" then [value.value] else [])
    + seq(|args|, i requires 0 <= i < |args| => ArgWord(args[i]))
  }

  /** A word of the path and a key: copied unquoted, so nothing in it may need quoting. */
  predicate PlainWord(w: string) {
    w != "" && AllPlain(w)
  }

  lemma PlainPrints(w: string)
    requires PlainWord(w)
    ensures Prints(w, w)
  {
    forall rest: string ensures Scan(w + rest, "", false) == Scan(rest, w, true) {
      ScanPlain(w, rest, "", false);
      assert "" + w == w;
    }
  }

  /** A plain start followed by a quoted value is one word, though its quotes begin inside the word. */
  lemma PlainThenQuotePrints(start: string, v: string)
    requires PlainWord(start)
    ensures Prints(start + Quote(v), start + v)
  {
    forall rest: string ensures Scan(start + Quote(v) + rest, "", false) == Scan(rest, start + v, true) {
      assert start + Quote(v) + rest == start + (Quote(v) + rest);
      ScanPlain(start, Quote(v) + rest, "", false);
      assert "" + start == start;
      QuoteReadsBack(v, rest, start, true);
    }
  }

  /** The printed form of an argument. */
  function ArgPart(a: Arg): string {
    match a.val
    case Flag(true) => "--" + a.key
    case Flag(false) => "--" + a.key + "=false"
    case Items(items) => "--" + a.key + "=" + Quote(Join(items, ","))
    case Text(text) => "--" + a.key + "=" + Quote(text)
  }

  function CommandParts(path: seq<string>, value: Option<string>, args: seq<Arg>): seq<string> {
    path
    + (if value.Some? && value.value != "" then [Quote(value.value)] else [])
    + seq(|args|, i requires 0 <= i < |args| => ArgPart(args[i]))
  }

  /** `_raw_command`: the parts are collected one by one, then joined. */
  method RawCommand(path: seq<string>, value: Option<string>, args: seq<Arg>) returns (line: string)
    ensures line == Join(CommandParts(path, value, args), " ")
  {
    var parts := path;
    if value.Some? && value.value != "" {
      parts := parts + [Quote(value.value)];
    }
    ghost var before := parts;
    for n := 0 to |args|
      invariant parts == before + seq(n, i requires 0 <= i < n => ArgPart(args[i]))
    {
      ghost var soFar := seq(n, i requires 0 <= i < n => ArgPart(args[i]));
      var a := args[n];
      match a.val {
        case Flag(on) =>
          parts := parts + [if on then "--" + a.key else "--" + a.key + "=false"];
        case Items(items) =>
          parts := parts + ["--" + a.key + "=" + Quote(Join(items, ","))];
        case Text(text) =>
          parts := parts + ["--" + a.key + "=" + Quote(text)];
      }
      assert seq(n + 1, i requires 0 <= i < n + 1 => ArgPart(args[i])) == soFar + [ArgPart(a)];
    }
    line := Join(parts, " ");
  }

  /** The path words and the keys stand in the line as they are, whatever they hold. */
  lemma PartsExactly(path: seq<string>, value: Option<string>, args: seq<Arg>)
    ensures var parts, start := CommandParts(path, value, args), |path| + (if OrEmpty(value) == "" then 0 else 1);
      && |parts| == start + |args|
      && (forall i :: 0 <= i < |path| ==> parts[i] == path[i])
      && (OrEmpty(value) != "" ==> parts[|path|] == Quote(OrEmpty(value)))
      && (forall i :: 0 <= i < |args| ==>
            && "--" + args[i].key <= parts[start + i]
            && (args[i].val.Text? ==> parts[start + i] == "--" + args[i].key + "=" + Quote(args[i].val.text)))
  {
    hide Quote, Join, ArgPart;
    forall a: Arg ensures "--" + a.key <= ArgPart(a) {
      KeyBegins(a);
    }
    forall a: Arg | a.val.Text? ensures ArgPart(a) == "--" + a.key + "=" + Quote(a.val.text) {
      KeyBegins(a);
    }
  }

  lemma KeyBegins(a: Arg)
    ensures "--" + a.key <= ArgPart(a)
    ensures a.val.Text? ==> ArgPart(a) == "--" + a.key + "=" + Quote(a.val.text)
  {
    hide Quote, Join;
  }

  function OrEmpty(value: Option<string>): string {
    if value.Some? then value.value else ""
  }

  lemma ArgPrints(a: Arg)
    requires AllPlain(a.key)
    ensures Prints(ArgPart(a), ArgWord(a))
  {
    var dashed := "--" + a.key;
    match a.val {
      case Flag(true) => PlainPrints(dashed);
      case Flag(false) => PlainPrints(dashed + "=false");
      case Items(items) => PlainThenQuotePrints(dashed + "=", Join(items, ","));
      case Text(text) => PlainThenQuotePrints(dashed + "=", text);
    }
  }

  /** For plain path words and keys the command line splits into exactly the words of the call. */
  lemma RawCommandSplits(path: seq<string>, value: Option<string>, args: seq<Arg>)
    requires forall w :: w in path ==> PlainWord(w)
    requires forall a :: a in args ==> AllPlain(a.key)
    ensures Words(Join(CommandParts(path, value, args), " ")) == CommandWords(path, value, args)
  {
    var parts, words := CommandParts(path, value, args), CommandWords(path, value, args);
    var mid := if value.Some? && value.value != "" then 1 else 0;
    forall i | 0 <= i < |parts| ensures Prints(parts[i], words[i]) {
      if i < |path| {
        PlainPrints(path[i]);
      } else if i < |path| + mid {
        QuotePrints(value.value);
      } else {
        ArgPrints(args[i - |path| - mid]);
      }
    }
    JoinThenSplit(parts, words);
  }

  // ---------------------------------------------------------------------
  // Which unquoted words are safe
  // ---------------------------------------------------------------------

  ghost predicate NoneLonger(words: seq<string>, n: nat) {
    forall i :: 0 <= i < |words| ==> |words[i]| <= n
  }

  lemma TooLong(words: seq<string>, w: string, n: nat)
    requires NoneLonger(words, n) && |w| > n
    ensures words != [w]
  {
    assert [w][0] == w;
  }

  /** Splitting never lengthens: no word is longer than the text it was read from. */
  lemma {:induction false} WordsNoLonger(t: string, current: string, inWord: bool)
    ensures NoneLonger(Scan(t, current, inWord), |current| + |t|)
    decreases |t|
  {
    if t == "" {
    } else if t[0] == '\\' && |t| > 1 {
      WordsNoLonger(t[2..], current + [t[1]], true);
    } else if t[0] == '\'' && Find(t[1..], '\'') != -1 {
      var k := Find(t[1..], '\'');
      WordsNoLonger(t[k + 2..], current + t[1..k + 1], true);
    } else if t[0] == '"' && DoubleQuoted(t[1..]).Some? {
      var q := DoubleQuoted(t[1..]).value;
      QuotedNoLonger(t[1..]);
      WordsNoLonger(q.rest, current + q.text, true);
    } else {
      StepOther(t, 0, current, inWord);
      assert t[0..] == t;
      if IsSpace(t[0]) {
        WordsNoLonger(t[1..], "", false);
      } else {
        WordsNoLonger(t[1..], current + [t[0]], true);
      }
    }
  }

  lemma {:induction false} QuotedNoLonger(t: string)
    requires DoubleQuoted(t).Some?
    ensures var q := DoubleQuoted(t).value; |q.text| + |q.rest| < |t|
    decreases |t|
  {
    if t[0] == '\\' && |t| > 1 && t[1] in "\"\\" {
      QuotedNoLonger(t[2..]);
    } else if t[0] != '"' {
      QuotedNoLonger(t[1..]);
    }
  }

  /** An unclosed double quote is closed by any plain character and a quote after it. */
  lemma {:induction false} CloseQuoted(t: string)
    requires DoubleQuoted(t).None?
    ensures DoubleQuoted(t + "x\"").Some?
    decreases |t|
  {
    var u := t + "x\"";
    if t == "" {
      assert u[1..] == "\"";
    } else if t[0] == '\\' && |t| > 1 && t[1] in "\"\\" {
      assert u[2..] == t[2..] + "x\"";
      CloseQuoted(t[2..]);
    } else {
      assert u[1..] == t[1..] + "x\"";
      CloseQuoted(t[1..]);
    }
  }

  /** Text after which `w` is not read as itself, for a `w` starting with a character that is not plain. */
  function Spoiler(w: string): string
    requires w != "" && !Plain(w[0])
  {
    if w[0] == '\\' && |w| == 1 then "x"
    else if w[0] == '\'' && '\'' !in w[1..] then "'"
    else if w[0] == '"' && DoubleQuoted(w[1..]).None? then "x\""
    else ""
  }

  lemma SpoilerAlone(w: string, whole: string)
    requires w != "" && !Plain(w[0])
    ensures Scan(Spoiler(w), whole, true) == [whole + Spoiler(w)]
  {
    var rest := Spoiler(w);
    if rest == "" {
      assert whole + "" == whole;
    } else if rest == "'" {
      assert rest[1..] == "";
    } else {
      assert rest[1..] == "" || rest[1..] == "\"";
      if rest == "x\"" {
        assert Scan("\"", whole + "x", true) == [whole + "x" + "\""] by {
          assert "\""[1..] == "";
        }
        assert whole + "x" + "\"" == whole + rest;
      }
    }
  }

  /** An escape, a closed quote and a space each lose a character. */
  ghost predicate Shortens(t: string, current: string)
    requires t != ""
  {
    NoneLonger(Scan(t, current, current != ""), |current| + |t| - 1)
  }

  lemma EscapeShortens(t: string, current: string)
    requires |t| > 1 && t[0] == '\\'
    ensures Shortens(t, current)
  {
    WordsNoLonger(t[2..], current + [t[1]], true);
  }

  lemma SingleShortens(t: string, current: string)
    requires t != "" && t[0] == '\'' && '\'' in t[1..]
    ensures Shortens(t, current)
  {
    var k := Find(t[1..], '\'');
    WordsNoLonger(t[k + 2..], current + t[1..k + 1], true);
  }

  lemma DoubleShortens(t: string, current: string)
    requires t != "" && t[0] == '"' && DoubleQuoted(t[1..]).Some?
    ensures Shortens(t, current)
  {
    QuotedNoLonger(t[1..]);
    var q := DoubleQuoted(t[1..]).value;
    WordsNoLonger(q.rest, current + q.text, true);
  }

  lemma SpaceShortens(t: string, current: string)
    requires t != "" && IsSpace(t[0])
    ensures Shortens(t, current)
  {
    WordsNoLonger(t[1..], "", false);
    StepOther(t, 0, current, current != "");
    assert t[0..] == t;
  }

  lemma SpoilerSpoils(w: string, current: string)
    requires w != "" && !Plain(w[0])
    ensures Scan(w + Spoiler(w), current, current != "") != [current + w + Spoiler(w)]
  {
    hide Scan, IsSpace;
    var rest := Spoiler(w);
    var t := w + rest;
    assert t[1..] == w[1..] + rest;
    if w[0] == '\\' {
      EscapeShortens(t, current);
    } else if w[0] == '\'' {
      assert '\'' in w[1..] || rest == "'";
      SingleShortens(t, current);
    } else if w[0] == '"' {
      if DoubleQuoted(w[1..]).None? {
        CloseQuoted(w[1..]);
      } else {
        assert t[1..] == w[1..];
      }
      DoubleShortens(t, current);
    } else {
      SpaceShortens(t, current);
    }
    TooLong(Scan(t, current, current != ""), current + w + rest, |current| + |t| - 1);
  }

  /** A word is read back unchanged whatever follows it if and only if it is plain. */
  lemma PlainExactly(w: string)
    ensures Prints(w, w) <==> PlainWord(w)
  {
    hide Scan, Spoiler, Plain;
    if PlainWord(w) {
      PlainPrints(w);
    } else if w == "" {
      NothingIsNoWord();
      assert w + "" == "";
    } else {
      var k := FirstNotPlain(w);
      var tail := w[k..];
      var rest := Spoiler(tail);
      assert w + rest == w[..k] + (tail + rest);
      ScanPlain(w[..k], tail + rest, "", false);
      assert "" + w[..k] == w[..k] && w[..k] + tail + rest == w + rest;
      SpoilerSpoils(tail, w[..k]);
      SpoilerAlone(tail, w);
      assert Scan(w + rest, "", false) != Scan(rest, w, true);
    }
  }

  lemma NothingIsNoWord()
    ensures Scan("", "", false) != Scan("", "", true)
  {
  }

  lemma {:induction false} FirstNotPlain(w: string) returns (k: nat)
    requires !AllPlain(w)
    ensures k < |w| && !Plain(w[k]) && AllPlain(w[..k])
  {
    if !Plain(w[0]) {
      k := 0;
    } else {
      k := FirstNotPlain(w[1..]);
      k := k + 1;
      assert w[..k] == [w[0]] + w[1..][..k - 1];
    }
  }
}
