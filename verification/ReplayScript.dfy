/** The replay script of an export (exportMessages.ts), read back by a shell and a template engine. */
module ReplayScript {
  import opened Wrappers

  // Templates: what stands between {{ and }} is an action; the only action
  // known here is a string constant, which prints itself.

  /** Every {{ written as the action that prints it. */
  function EscapeTemplate(s: string): string {
    if |s| < 2 then s
    else if s[0] == '{' && s[1] == '{' then "{{\"{{\"}}" + EscapeTemplate(s[2..])
    else [s[0]] + EscapeTemplate(s[1..])
  }

  function Render(t: string): Option<string>
    decreases |t|
  {
    if |t| < 2 then Some(t)
    else if t[0] == '{' && t[1] == '{' then
      if |t| > 2 && t[2] == '"' then RenderConstant(t[3..], "") else None
    else
      Prepend([t[0]], Render(t[1..]))
  }

  /** The constant up to its closing quote; an escape inside it is not interpreted here. */
  function RenderConstant(t: string, constant: string): Option<string>
    decreases |t|
  {
    if t == "" || t[0] == '\\' || t[0] == '\n' then None
    else if t[0] != '"' then RenderConstant(t[1..], constant + [t[0]])
    else if |t| > 2 && t[1] == '}' && t[2] == '}' then Prepend(constant, Render(t[3..]))
    else None
  }

  function Prepend<T>(first: seq<T>, rest: Option<seq<T>>): Option<seq<T>> {
    if rest.Some? then Some(first + rest.value) else None
  }

  /** Rendering undoes the escaping, whatever the text. */
  lemma {:induction false} RenderOfEscape(s: string)
    ensures Render(EscapeTemplate(s)) == Some(s)
  {
    var t := EscapeTemplate(s);
    if |s| >= 2 {
      if s[0] == '{' && s[1] == '{' {
        RenderOfEscape(s[2..]);
        var rest := EscapeTemplate(s[2..]);
        assert t[3..] == "{{\"}}" + rest;
        RenderBraces(rest);
        assert "{{" + s[2..] == s;
      } else {
        RenderOfEscape(s[1..]);
        assert t[1..] == EscapeTemplate(s[1..]);
        assert EscapeTemplate(s[1..])[0] == s[1];
        assert [s[0]] + s[1..] == s;
      }
    }
  }

  lemma RenderBraces(rest: string)
    ensures RenderConstant("{{\"}}" + rest, "") == Prepend("{{", Render(rest))
  {
    var t := "{{\"}}" + rest;
    var u := "\"}}" + rest;
    assert t[1..][1..] == u && u[3..] == rest;
    assert "" + [t[0]] == "{" && "{" + [t[1..][0]] == "{{";
    assert RenderConstant(t, "") == RenderConstant(t[1..], "{");
    assert RenderConstant(t[1..], "{") == RenderConstant(u, "{{");
  }

  predicate HoldsBraces(s: string) { exists i | 0 <= i < |s| - 1 :: s[i] == '{' && s[i + 1] == '{' }

  /** Rendering changes a text exactly when it holds {{. */
  lemma RenderKeepsIffPlain(s: string)
    ensures Render(s) == Some(s) <==> !HoldsBraces(s)
  {
    RenderShrinks(s);
    if !HoldsBraces(s) {
      PlainIsItsTemplate(s);
    }
  }

  /** A text without {{ is its own template: nothing had to be escaped, and nothing is changed. */
  lemma {:induction false} PlainIsItsTemplate(s: string)
    requires !HoldsBraces(s)
    ensures EscapeTemplate(s) == s && Render(s) == Some(s)
  {
    if |s| >= 2 {
      assert !HoldsBraces(s[1..]) by {
        assert forall i | 0 <= i < |s[1..]| :: s[1..][i] == s[i + 1];
      }
      PlainIsItsTemplate(s[1..]);
      assert [s[0]] + s[1..] == s;
    }
  }

  lemma {:induction false} RenderShrinks(t: string)
    ensures Render(t).Some? ==> |Render(t).value| <= |t|
    ensures Render(t).Some? && HoldsBraces(t) ==> |Render(t).value| < |t|
    decreases |t|
  {
    if |t| >= 2 {
      if t[0] == '{' && t[1] == '{' {
        if |t| > 2 && t[2] == '"' {
          ConstantShrinks(t[3..], "");
        }
      } else {
        RenderShrinks(t[1..]);
        assert HoldsBraces(t) ==> HoldsBraces(t[1..]) by {
          assert forall i | 0 <= i < |t[1..]| :: t[1..][i] == t[i + 1];
        }
      }
    }
  }

  lemma {:induction false} ConstantShrinks(t: string, constant: string)
    ensures RenderConstant(t, constant).Some? ==> |RenderConstant(t, constant).value| <= |constant| + |t|
    decreases |t|
  {
    if t != "" && t[0] != '"' {
      ConstantShrinks(t[1..], constant + [t[0]]);
    } else if |t| > 2 {
      RenderShrinks(t[3..]);
    }
  }

  // The shell: words, pipes and line ends, after section 2 of the POSIX Shell
  // Command Language. Text in double quotes is taken as something the shell
  // expands; characters whose meaning the script does not use are refused.

  datatype Token = Word(text: string) | Expanding(text: string) | Pipe | Or | LineEnd

  /** Characters with no meaning of their own. There are more; a script that used them would not be read. */
  predicate Ordinary(c: char) {
    || 'a' <= c <= 'z' || 'A' <= c <= 'Z' || '0' <= c <= '9'
    || c == '-' || c == '_' || c == '.' || c == '/' || c == ':' || c == '%' || c == '=' || c == '[' || c == ']'
  }

  /** The tokens of a text; word is what the current word holds so far. */
  function Lex(s: string, word: Option<string>): Option<seq<Token>>
    decreases |s|
  {
    if s == "" then Some(Ended(word))
    else if s[0] == '\'' then LexQuoted(s[1..], if word.Some? then word.value else "")
    else if s[0] == '\\' then
      if |s| < 2 || s[1] == '\n' then None else Lex(s[2..], Some((if word.Some? then word.value else "") + [s[1]]))
    else if s[0] == ' ' then Prepend(Ended(word), Lex(s[1..], None))
    else if s[0] == '\n' then Prepend(Ended(word) + [LineEnd], Lex(s[1..], None))
    else if s[0] == '|' then
      if |s| > 1 && s[1] == '|' then Prepend(Ended(word) + [Or], Lex(s[2..], None))
      else Prepend(Ended(word) + [Pipe], Lex(s[1..], None))
    else if s[0] == '"' && word.None? then LexExpanding(s[1..], "")
    else if Ordinary(s[0]) then Lex(s[1..], Some((if word.Some? then word.value else "") + [s[0]]))
    else None
  }

  /** Between single quotes every character stands for itself. */
  function LexQuoted(s: string, word: string): Option<seq<Token>>
    decreases |s|
  {
    if s == "" then None
    else if s[0] == '\'' then Lex(s[1..], Some(word))
    else LexQuoted(s[1..], word + [s[0]])
  }

  function LexExpanding(s: string, text: string): Option<seq<Token>>
    decreases |s|
  {
    if s == "" || s[0] == '\\' || s[0] == '`' then None
    else if s[0] == '"' then Prepend([Expanding(text)], Lex(s[1..], None))
    else LexExpanding(s[1..], text + [s[0]])
  }

  function Ended(word: Option<string>): seq<Token> {
    if word.Some? then [Word(word.value)] else []
  }

  function EscapeQuotes(s: string): string {
    if s == "" then "" else (if s[0] == '\'' then "'\\''" else [s[0]]) + EscapeQuotes(s[1..])
  }

  function ShQuote(s: string): string { "'" + EscapeQuotes(s) + "'" }

  /** A quoted text, wherever it stands, adds exactly that text to the word it stands in. */
  lemma ShQuoteIsOneWord(s: string, rest: string, word: Option<string>)
    ensures Lex(ShQuote(s) + rest, word) == Lex(rest, Some((if word.Some? then word.value else "") + s))
  {
    hide Lex, LexQuoted, EscapeQuotes;
    var text := EscapeQuotes(s) + "'" + rest;
    LexOpenQuote(text, word);
    EscapedText(s, rest, if word.Some? then word.value else "");
    assert ShQuote(s) + rest == "'" + text;
  }

  lemma LexOpenQuote(rest: string, word: Option<string>)
    ensures Lex("'" + rest, word) == LexQuoted(rest, if word.Some? then word.value else "")
  {
  }

  lemma {:induction false} EscapedText(s: string, rest: string, word: string)
    ensures LexQuoted(EscapeQuotes(s) + "'" + rest, word) == Lex(rest, Some(word + s))
  {
    var t := EscapeQuotes(s) + "'" + rest;
    if s == "" {
      assert t[1..] == rest && word + s == word;
    } else {
      var more := EscapeQuotes(s[1..]) + "'" + rest;
      EscapedText(s[1..], rest, word + [s[0]]);
      assert word + [s[0]] + s[1..] == word + s;
      if s[0] == '\'' {
        QuotedQuote(more, word);
        assert t == "'\\''" + more;
      } else {
        assert t[1..] == more;
      }
    }
  }

  lemma QuotedQuote(rest: string, word: string)
    ensures LexQuoted("'\\''" + rest, word) == LexQuoted(rest, word + "'")
  {
    var t := "'\\''" + rest;
    assert t[1..] == "\\''" + rest && t[1..][2..] == "'" + rest && t[1..][2..][1..] == rest;
    assert Lex(t[1..], Some(word)) == Lex(t[1..][2..], Some(word + "'"));
  }

  // The lines of the script. A row's headers come as the source enumerates
  // them; the context around the lines is fixed text.

  datatype Row = Row(subject: string, payload: string, binary: bool, headers: seq<(string, seq<string>)>)

  function HeaderFlags(name: string, values: seq<string>): seq<string> {
    if values == [] then [] else ["-H " + ShQuote(name + ":" + values[0])] + HeaderFlags(name, values[1..])
  }

  function Flags(headers: seq<(string, seq<string>)>): seq<string> {
    if headers == [] then [] else HeaderFlags(headers[0].0, headers[0].1) + Flags(headers[1..])
  }

  function JoinFlags(flags: seq<string>): string {
    if flags == [] then "" else if |flags| == 1 then flags[0] else flags[0] + " " + JoinFlags(flags[1..])
  }

  /** The line that publishes a row. */
  function Line(r: Row): string {
    var flags, subject := JoinFlags(Flags(r.headers)), ShQuote(r.subject);
    if r.binary then
      "printf %s " + ShQuote(r.payload) + " | base64 -d | nats pub " + subject + " --force-stdin"
      + if flags != "" then " " + flags else ""
    else
      "nats pub " + subject + " " + ShQuote(EscapeTemplate(r.payload)) + if flags != "" then " " + flags else ""
  }

  const PAUSE := "[ \"$DELAY\" = 0 ] || sleep \"$DELAY\""

  /** A line for every row, and a pause between two of them. */
  method Lines(rows: seq<Row>) returns (out: seq<string>)
    ensures out == ScriptLines(rows)
  {
    out := [];
    for i := 0 to |rows|
      invariant out + ScriptLines(rows[i..]) == ScriptLines(rows)
    {
      out := out + [Line(rows[i])];
      if i < |rows| - 1 {
        out := out + [PAUSE];
      }
      assert rows[i..][1..] == rows[i + 1..];
    }
  }

  function ScriptLines(rows: seq<Row>): seq<string> {
    if rows == [] then []
    else [Line(rows[0])] + (if |rows| > 1 then [PAUSE] else []) + ScriptLines(rows[1..])
  }

  /** The script text these lines are: each is ended by a line feed. */
  function TextOf(lines: seq<string>): string {
    if lines == [] then "" else lines[0] + "\n" + TextOf(lines[1..])
  }

  // What a run of the script publishes.

  datatype Message = Message(subject: string, content: string, headers: seq<string>)

  /**
   * A word the command line takes as an option wherever it stands, quoted or not: the shell drops
   * the quotes before.
   */
  predicate IsOption(w: string) { |w| >= 2 && w[0] == '-' }

  /** What nats pub is called with. */
  datatype Args = Args(words: seq<string>, headers: seq<string>, stdin: bool)

  /** Words and options in any order; -H takes the next word, which must not look like an option itself. */
  function ArgsOf(ts: seq<Token>): Option<Args> {
    if ts == [] then Some(Args([], [], false))
    else if !ts[0].Word? then None
    else if ts[0].text == "-H" then
      if |ts| >= 2 && ts[1].Word? && !IsOption(ts[1].text) then WithHeader(ts[1].text, ArgsOf(ts[2..])) else None
    else if ts[0].text == "--force-stdin" then WithStdin(ArgsOf(ts[1..]))
    else if IsOption(ts[0].text) then None
    else WithWord(ts[0].text, ArgsOf(ts[1..]))
  }

  function WithHeader(text: string, a: Option<Args>): Option<Args> {
    if a.Some? then Some(a.value.(headers := [text] + a.value.headers)) else None
  }

  function WithStdin(a: Option<Args>): Option<Args> {
    if a.Some? then Some(a.value.(stdin := true)) else None
  }

  function WithWord(w: string, a: Option<Args>): Option<Args> {
    if a.Some? then Some(a.value.(words := [w] + a.value.words)) else None
  }

  /** What a line of tokens publishes; the content goes through the template engine. */
  function Published(line: seq<Token>, decode: string -> string): Option<seq<Message>> {
    if line == PAUSE_TOKENS then
      Some([])
    else if |line| >= 2 && line[0] == Word("nats") && line[1] == Word("pub") then
      var a := ArgsOf(line[2..]);
      if a.Some? && |a.value.words| == 2 && !a.value.stdin
      then PublishedAs(a.value.words[0], a.value.words[1], a.value.headers) else None
    else if |line| >= 9 && line[..2] == [Word("printf"), Word("%s")] && line[2].Word?
      && line[3..9] == [Pipe, Word("base64"), Word("-d"), Pipe, Word("nats"), Word("pub")] then
      var a := ArgsOf(line[9..]);
      if a.Some? && |a.value.words| == 1 && a.value.stdin
      then PublishedAs(a.value.words[0], decode(line[2].text), a.value.headers) else None
    else
      None
  }

  function PublishedAs(subject: string, template: string, headers: seq<string>): Option<seq<Message>> {
    var content := Render(template);
    if content.Some? then Some([Message(subject, content.value, headers)]) else None
  }

  const PAUSE_TOKENS := [
    Word("["), Expanding("$DELAY"), Word("="), Word("0"), Word("]"), Or, Word("sleep"), Expanding("$DELAY")]

  /** Line by line, what a text of tokens publishes. */
  function Run(tokens: seq<Token>, line: seq<Token>, decode: string -> string): Option<seq<Message>> {
    if tokens == [] then
      if line == [] then Some([]) else None
    else if tokens[0] == LineEnd then
      var now := Published(line, decode);
      if now.Some? then Prepend(now.value, Run(tokens[1..], [], decode)) else None
    else
      Run(tokens[1..], line + [tokens[0]], decode)
  }

  function RunText(s: string, decode: string -> string): Option<seq<Message>> {
    var tokens := Lex(s, None);
    if tokens.Some? then Run(tokens.value, [], decode) else None
  }

  // Every line is a row of words and signs with blanks between them.

  datatype Piece = Plain(text: string) | Quoted(text: string) | Param(text: string) | Bar | Bars

  predicate Sound(p: Piece) {
    match p
    case Plain(w) => w != "" && forall i | 0 <= i < |w| :: Ordinary(w[i])
    case Param(t) => forall i | 0 <= i < |t| :: t[i] != '\\' && t[i] != '`' && t[i] != '"'
    case _ => true
  }

  function Shown(p: Piece): string {
    match p
    case Plain(w) => w
    case Quoted(t) => ShQuote(t)
    case Param(t) => "\"" + t + "\""
    case Bar => "|"
    case Bars => "||"
  }

  function Read(p: Piece): Token {
    match p
    case Plain(w) => Word(w)
    case Quoted(t) => Word(t)
    case Param(t) => Expanding(t)
    case Bar => Pipe
    case Bars => Or
  }

  function Spaced(ps: seq<Piece>): string {
    if ps == [] then "" else if |ps| == 1 then Shown(ps[0]) else Shown(ps[0]) + " " + Spaced(ps[1..])
  }

  function ReadAll(ps: seq<Piece>): (r: seq<Token>)
    ensures |r| == |ps|
  {
    seq(|ps|, i requires 0 <= i < |ps| => Read(ps[i]))
  }

  lemma LexOrdinary(c: char, rest: string, word: Option<string>)
    requires Ordinary(c)
    ensures Lex([c] + rest, word) == Lex(rest, Some((if word.Some? then word.value else "") + [c]))
  {
    hide LexQuoted, LexExpanding, Prepend;
    var s := [c] + rest;
    assert s[0] == c && s[1..] == rest;
  }

  lemma {:induction false} LexWord(w: string, rest: string, word: string)
    requires forall i | 0 <= i < |w| :: Ordinary(w[i])
    ensures Lex(w + rest, Some(word)) == Lex(rest, Some(word + w))
  {
    hide Lex, Ordinary;
    if w == "" {
      assert w + rest == rest && word + w == word;
    } else {
      LexWord(w[1..], rest, word + [w[0]]);
      LexOrdinary(w[0], w[1..] + rest, Some(word));
      assert w + rest == [w[0]] + (w[1..] + rest) && word + [w[0]] + w[1..] == word + w;
    }
  }

  lemma {:induction false} LexParam(t: string, rest: string, text: string)
    requires Sound(Param(t))
    ensures LexExpanding(t + "\"" + rest, text) == Prepend([Expanding(text + t)], Lex(rest, None))
  {
    var s := t + "\"" + rest;
    if t == "" {
      assert s[1..] == rest && text + t == text;
    } else {
      LexParam(t[1..], rest, text + [t[0]]);
      assert s[1..] == t[1..] + "\"" + rest && text + [t[0]] + t[1..] == text + t;
    }
  }

  function Closing(d: char): seq<Token> { if d == '\n' then [LineEnd] else [] }

  lemma LexEnd(word: Option<string>, d: char, rest: string)
    requires d == ' ' || d == '\n'
    ensures Lex([d] + rest, word) == Prepend(Ended(word) + Closing(d), Lex(rest, None))
  {
    assert ([d] + rest)[1..] == rest && Ended(word) + [] == Ended(word);
  }

  lemma LexPiece(p: Piece, d: char, rest: string)
    requires Sound(p) && (d == ' ' || d == '\n')
    ensures Lex(Shown(p) + [d] + rest, None) == Prepend([Read(p)] + Closing(d), Lex(rest, None))
  {
    hide Lex, Ordinary, ShQuote;
    var after := [d] + rest;
    LexEnd(None, d, rest);
    assert [] + Closing(d) == Closing(d);
    match p
    case Plain(w) =>
      assert Shown(p) + [d] + rest == w + after;
      LexPlain(w, after);
      LexEnd(Some(w), d, rest);
    case Quoted(t) =>
      assert Shown(p) + [d] + rest == ShQuote(t) + after && "" + t == t;
      ShQuoteIsOneWord(t, after, None);
      LexEnd(Some(t), d, rest);
    case Param(t) =>
      assert Shown(p) + [d] + rest == "\"" + t + "\"" + after;
      LexParamWord(t, after);
      PrependTwice([Expanding(t)], Closing(d), Lex(rest, None));
    case _ =>
      assert Shown(p) + [d] + rest == Shown(p) + after;
      LexBars(p, after);
      PrependTwice([Read(p)], Closing(d), Lex(rest, None));
  }

  lemma LexPlain(w: string, rest: string)
    requires Sound(Plain(w))
    ensures Lex(w + rest, None) == Lex(rest, Some(w))
  {
    hide Lex, Ordinary;
    LexOrdinary(w[0], w[1..] + rest, None);
    LexWord(w[1..], rest, [w[0]]);
    assert w + rest == [w[0]] + (w[1..] + rest) && "" + [w[0]] == [w[0]] && [w[0]] + w[1..] == w;
  }

  lemma LexOpenParam(rest: string)
    ensures Lex("\"" + rest, None) == LexExpanding(rest, "")
  {
  }

  lemma LexParamWord(t: string, rest: string)
    requires Sound(Param(t))
    ensures Lex("\"" + t + "\"" + rest, None) == Prepend([Expanding(t)], Lex(rest, None))
  {
    hide Lex, LexExpanding, Sound;
    LexOpenParam(t + "\"" + rest);
    LexParam(t, rest, "");
    assert "\"" + t + "\"" + rest == "\"" + (t + "\"" + rest) && "" + t == t;
  }

  lemma LexBars(p: Piece, rest: string)
    requires p.Bar? || p.Bars?
    requires rest != "" && rest[0] != '|'
    ensures Lex(Shown(p) + rest, None) == Prepend([Read(p)], Lex(rest, None))
  {
    var s := Shown(p) + rest;
    assert s[|Shown(p)|..] == rest && s[1] == if p.Bar? then rest[0] else '|';
    assert [] + [Read(p)] == [Read(p)];
  }

  lemma PrependTwice<T>(a: seq<T>, b: seq<T>, r: Option<seq<T>>)
    ensures Prepend(a, Prepend(b, r)) == Prepend(a + b, r)
  {
    assert r.Some? ==> a + (b + r.value) == (a + b) + r.value;
  }

  lemma {:induction false} LexLine(ps: seq<Piece>, rest: string)
    requires ps != [] && forall i | 0 <= i < |ps| :: Sound(ps[i])
    ensures Lex(Spaced(ps) + "\n" + rest, None) == Prepend(ReadAll(ps) + [LineEnd], Lex(rest, None))
  {
    hide Lex, Shown, Sound, Read;
    if |ps| == 1 {
      LexPiece(ps[0], '\n', rest);
      assert ReadAll(ps) == [Read(ps[0])];
    } else {
      var more := Spaced(ps[1..]) + "\n" + rest;
      LexPiece(ps[0], ' ', more);
      assert Spaced(ps) + "\n" + rest == Shown(ps[0]) + [' '] + more;
      LexLine(ps[1..], rest);
      PrependTwice([Read(ps[0])], ReadAll(ps[1..]) + [LineEnd], Lex(rest, None));
      assert [Read(ps[0])] + (ReadAll(ps[1..]) + [LineEnd]) == ReadAll(ps) + [LineEnd];
      assert [Read(ps[0])] + [] == [Read(ps[0])];
    }
  }

  function HeaderPieces(name: string, values: seq<string>): seq<Piece> {
    if values == [] then [] else [Plain("-H"), Quoted(name + ":" + values[0])] + HeaderPieces(name, values[1..])
  }

  function FlagPieces(headers: seq<(string, seq<string>)>): seq<Piece> {
    if headers == [] then [] else HeaderPieces(headers[0].0, headers[0].1) + FlagPieces(headers[1..])
  }

  /** The headers of a row, one text for every value of every name. */
  function HeaderTexts(name: string, values: seq<string>): (texts: seq<string>)
    ensures |texts| == |values| && forall i | 0 <= i < |values| :: texts[i] == name + ":" + values[i]
  {
    if values == [] then [] else [name + ":" + values[0]] + HeaderTexts(name, values[1..])
  }

  function AllHeaderTexts(headers: seq<(string, seq<string>)>): seq<string> {
    if headers == [] then [] else HeaderTexts(headers[0].0, headers[0].1) + AllHeaderTexts(headers[1..])
  }

  function ValueCount(headers: seq<(string, seq<string>)>): nat {
    if headers == [] then 0 else |headers[0].1| + ValueCount(headers[1..])
  }

  /** Every value of every header is there under its name, nothing else is, and there are as many as values. */
  lemma {:induction false} HeaderTextsAre(headers: seq<(string, seq<string>)>)
    ensures |AllHeaderTexts(headers)| == ValueCount(headers)
    ensures forall h, v | h in headers && v in h.1 :: h.0 + ":" + v in AllHeaderTexts(headers)
    ensures forall t | t in AllHeaderTexts(headers) :: exists h, v :: h in headers && v in h.1 && t == h.0 + ":" + v
  {
    if headers != [] {
      HeaderTextsAre(headers[1..]);
      var first, more := HeaderTexts(headers[0].0, headers[0].1), AllHeaderTexts(headers[1..]);
      forall h, v | h in headers && v in h.1 ensures h.0 + ":" + v in first + more {
        if h == headers[0] {
          var i :| 0 <= i < |h.1| && h.1[i] == v;
          assert first[i] == h.0 + ":" + v;
        } else {
          assert h in headers[1..];
        }
      }
      forall t | t in first + more ensures exists h, v :: h in headers && v in h.1 && t == h.0 + ":" + v {
        if t in first {
          var i :| 0 <= i < |first| && first[i] == t;
          assert headers[0] in headers && headers[0].1[i] in headers[0].1;
        } else {
          var h, v :| h in headers[1..] && v in h.1 && t == h.0 + ":" + v;
          assert h in headers;
        }
      }
    }
  }

  function PublishPieces(r: Row): seq<Piece> {
    if r.binary then
      [Plain("printf"), Plain("%s"), Quoted(r.payload), Bar, Plain("base64"), Plain("-d"), Bar,
       Plain("nats"), Plain("pub"), Quoted(r.subject), Plain("--force-stdin")]
    else
      [Plain("nats"), Plain("pub"), Quoted(r.subject), Quoted(EscapeTemplate(r.payload))]
  }

  function LinePieces(r: Row): seq<Piece> { PublishPieces(r) + FlagPieces(r.headers) }

  const PAUSE_PIECES := [
    Plain("["), Param("$DELAY"), Plain("="), Plain("0"), Plain("]"), Bars, Plain("sleep"), Param("$DELAY")]

  lemma {:induction false} SpacedTwo(a: seq<Piece>, b: seq<Piece>)
    requires a != [] && b != []
    ensures Spaced(a + b) == Spaced(a) + " " + Spaced(b)
  {
    assert (a + b)[1..] == a[1..] + b;
    if |a| > 1 {
      SpacedTwo(a[1..], b);
    }
  }

  lemma {:induction false} JoinTwo(a: seq<string>, b: seq<string>)
    requires a != [] && b != []
    ensures JoinFlags(a + b) == JoinFlags(a) + " " + JoinFlags(b)
  {
    assert (a + b)[1..] == a[1..] + b;
    if |a| > 1 {
      JoinTwo(a[1..], b);
    }
  }

  lemma EmptyLines()
    ensures Spaced([]) == "" == JoinFlags([]) && forall flag :: JoinFlags([flag]) == flag
  {
  }

  lemma FlagIsTwoPieces(text: string)
    ensures Spaced([Plain("-H"), Quoted(text)]) == "-H " + ShQuote(text)
    ensures Sound(Plain("-H")) && Sound(Quoted(text))
  {
  }

  lemma {:induction false} HeaderFlagsArePieces(name: string, values: seq<string>)
    ensures JoinFlags(HeaderFlags(name, values)) == Spaced(HeaderPieces(name, values))
    ensures HeaderFlags(name, values) == [] <==> HeaderPieces(name, values) == []
    ensures forall i | 0 <= i < |HeaderPieces(name, values)| :: Sound(HeaderPieces(name, values)[i])
  {
    hide Spaced, JoinFlags, Sound, ShQuote;
    EmptyLines();
    if values != [] {
      HeaderFlagsArePieces(name, values[1..]);
      var first := [Plain("-H"), Quoted(name + ":" + values[0])];
      var flag := "-H " + ShQuote(name + ":" + values[0]);
      FlagIsTwoPieces(name + ":" + values[0]);
      if |values| > 1 {
        SpacedTwo(first, HeaderPieces(name, values[1..]));
        JoinTwo([flag], HeaderFlags(name, values[1..]));
      } else {
        assert [flag] + [] == [flag] && first + [] == first;
      }
    }
  }

  lemma {:induction false} FlagsArePieces(headers: seq<(string, seq<string>)>)
    ensures JoinFlags(Flags(headers)) == Spaced(FlagPieces(headers))
    ensures Flags(headers) == [] <==> FlagPieces(headers) == []
    ensures forall i | 0 <= i < |FlagPieces(headers)| :: Sound(FlagPieces(headers)[i])
  {
    if headers != [] {
      var a, b := HeaderFlags(headers[0].0, headers[0].1), Flags(headers[1..]);
      var c, d := HeaderPieces(headers[0].0, headers[0].1), FlagPieces(headers[1..]);
      HeaderFlagsArePieces(headers[0].0, headers[0].1);
      FlagsArePieces(headers[1..]);
      if c == [] {
        assert a + b == b && c + d == d;
      } else if d == [] {
        assert a + b == a && c + d == c;
      } else {
        JoinTwo(a, b);
        SpacedTwo(c, d);
      }
    }
  }

  lemma SpacedCons(p: Piece, ps: seq<Piece>)
    requires ps != []
    ensures Spaced([p] + ps) == Shown(p) + " " + Spaced(ps)
  {
  }

  lemma SpacedOne(p: Piece)
    ensures Spaced([p]) == Shown(p)
  {
  }

  lemma PublishIsSound(r: Row)
    ensures forall i | 0 <= i < |PublishPieces(r)| :: Sound(PublishPieces(r)[i])
  {
  }

  lemma Assoc(a: string, b: string, c: string)
    ensures a + (b + c) == a + b + c
  {
  }

  /** Two pieces before others, in one text. */
  lemma SpacedPair(p: Piece, q: Piece, ps: seq<Piece>)
    requires ps != []
    ensures Spaced([p, q] + ps) == Shown(p) + " " + Shown(q) + " " + Spaced(ps)
  {
    hide Shown;
    var more := [q] + ps;
    assert more[1..] == ps && ([p, q] + ps)[1..] == more;
    assert Spaced([p, q] + ps) == Shown(p) + " " + Spaced(more);
  }

  // Fixed texts of the script, put together from what their pieces show.

  lemma PrintfText()
    ensures "printf" + " " + "%s" + " " == "printf %s "
  {
  }

  lemma DecodeText()
    ensures "base64" + " " + "-d" + " " == "base64 -d "
  {
  }

  lemma PubText()
    ensures "nats" + " " + "pub" + " " == "nats pub " && "|" + " " == "| "
  {
  }

  lemma PipeText()
    ensures " | " + "base64 -d " + "| " == " | base64 -d | " && " " + "|" + " " == " | "
  {
  }

  lemma PipelineText()
    ensures " | base64 -d | " + "nats pub " == " | base64 -d | nats pub " && " " + "--force-stdin" == " --force-stdin"
  {
  }

  lemma BinaryText(p: string, q: string)
    ensures
      "printf %s " + (p + " | " + ("base64 -d " + ("| " + ("nats pub " + (q + " --force-stdin"))))) ==
      "printf %s " + p + " | base64 -d | nats pub " + q + " --force-stdin"
  {
    var e := q + " --force-stdin";
    PipeText();
    PipelineText();
    Assoc("printf %s " + p + " | base64 -d | nats pub ", q, " --force-stdin");
    Assoc("| ", "nats pub ", e);
    Assoc("base64 -d ", "| ", "nats pub " + e);
    Assoc(p, " | ", "base64 -d " + ("| " + ("nats pub " + e)));
    Assoc(" | ", "base64 -d ", "| " + ("nats pub " + e));
    Assoc(" | " + "base64 -d ", "| ", "nats pub " + e);
    Assoc(" | base64 -d | ", "nats pub ", e);
    Assoc("printf %s ", p, " | base64 -d | nats pub " + e);
    Assoc("printf %s " + p, " | base64 -d | nats pub ", e);
  }

  lemma TextIsPieces(r: Row)
    requires !r.binary
    ensures Spaced(PublishPieces(r)) == "nats pub " + ShQuote(r.subject) + " " + ShQuote(EscapeTemplate(r.payload))
  {
    hide Spaced, ShQuote, EscapeTemplate;
    var ps := PublishPieces(r);
    PubText();
    SpacedOne(ps[3]);
    SpacedCons(ps[2], [ps[3]]);
    SpacedPair(ps[0], ps[1], [ps[2]] + [ps[3]]);
    assert [ps[0], ps[1]] + ([ps[2]] + [ps[3]]) == ps;
    Assoc("nats pub ", ShQuote(r.subject) + " ", ShQuote(EscapeTemplate(r.payload)));
    Assoc("nats pub ", ShQuote(r.subject), " ");
  }

  lemma PipelinePieces(r: Row)
    requires r.binary
    ensures
      Spaced(PublishPieces(r)[4..]) ==
      "base64 -d " + ("| " + ("nats pub " + (ShQuote(r.subject) + " --force-stdin")))
  {
    hide Spaced, ShQuote;
    var ps := PublishPieces(r);
    DecodeText();
    PubText();
    PipelineText();
    SpacedOne(ps[10]);
    SpacedCons(ps[9], [ps[10]]);
    SpacedPair(ps[7], ps[8], ps[9..]);
    SpacedCons(ps[6], ps[7..]);
    SpacedPair(ps[4], ps[5], ps[6..]);
    assert ps[9..] == [ps[9]] + [ps[10]] && ps[7..] == [ps[7], ps[8]] + ps[9..] && ps[6..] == [ps[6]] + ps[7..];
    assert ps[4..] == [ps[4], ps[5]] + ps[6..];
    Assoc(ShQuote(r.subject), " ", "--force-stdin");
  }

  lemma BinaryIsPieces(r: Row)
    requires r.binary
    ensures
      Spaced(PublishPieces(r)) ==
      "printf %s " + ShQuote(r.payload) + " | base64 -d | nats pub " + ShQuote(r.subject) + " --force-stdin"
  {
    hide Spaced, ShQuote;
    var ps := PublishPieces(r);
    var payload, subject := ShQuote(r.payload), ShQuote(r.subject);
    PrintfText();
    PipeText();
    PipelinePieces(r);
    SpacedPair(ps[2], ps[3], ps[4..]);
    SpacedPair(ps[0], ps[1], ps[2..]);
    assert ps[2..] == [ps[2], ps[3]] + ps[4..] && ps == [ps[0], ps[1]] + ps[2..];
    Assoc(payload + " ", "|", " ");
    Assoc(payload, " ", "|" + " ");
    Assoc(" ", "|", " ");
    BinaryText(payload, subject);
  }

  lemma {:induction false} FlagsShow(headers: seq<(string, seq<string>)>)
    ensures Flags(headers) != [] ==> Flags(headers)[0] != "" && JoinFlags(Flags(headers)) != ""
  {
    if headers != [] {
      FlagsShow(headers[1..]);
      var first := HeaderFlags(headers[0].0, headers[0].1);
      assert first == [] ==> first + Flags(headers[1..]) == Flags(headers[1..]);
    }
  }

  lemma LineIsPieces(r: Row)
    ensures Line(r) == Spaced(LinePieces(r))
    ensures LinePieces(r) != [] && forall i | 0 <= i < |LinePieces(r)| :: Sound(LinePieces(r)[i])
  {
    hide Spaced, JoinFlags, ShQuote, Sound, EscapeTemplate, Flags, FlagPieces;
    FlagsArePieces(r.headers);
    PublishIsSound(r);
    FlagsShow(r.headers);
    EmptyLines();
    if r.binary {
      BinaryIsPieces(r);
    } else {
      TextIsPieces(r);
    }
    if FlagPieces(r.headers) == [] {
      assert LinePieces(r) == PublishPieces(r);
    } else {
      SpacedTwo(PublishPieces(r), FlagPieces(r.headers));
    }
  }

  lemma BracketText()
    ensures "[" + " " + DELAY + " " == "[ \"$DELAY\" " && "=" + " " + "0" + " " == "= 0 "
  {
  }

  lemma SleepText()
    ensures "]" + " " + "||" + " " == "] || " && "sleep" + " " + DELAY == "sleep \"$DELAY\""
  {
  }

  lemma PauseText()
    ensures "[ \"$DELAY\" " + ("= 0 " + ("] || " + "sleep \"$DELAY\"")) == PAUSE
  {
  }

  const DELAY := "\"$DELAY\""

  lemma PauseIsPieces()
    ensures PAUSE == Spaced(PAUSE_PIECES)
  {
    hide Spaced, PAUSE;
    var ps := PAUSE_PIECES;
    assert Shown(ps[1]) == Shown(ps[7]) == DELAY;
    BracketText();
    SleepText();
    PauseText();
    SpacedOne(ps[7]);
    SpacedCons(ps[6], ps[7..]);
    SpacedPair(ps[4], ps[5], ps[6..]);
    SpacedPair(ps[2], ps[3], ps[4..]);
    SpacedPair(ps[0], ps[1], ps[2..]);
    assert ps[7..] == [ps[7]] && ps[6..] == [ps[6]] + ps[7..] && ps[4..] == [ps[4], ps[5]] + ps[6..];
    assert ps[2..] == [ps[2], ps[3]] + ps[4..] && ps == [ps[0], ps[1]] + ps[2..];
  }

  lemma PauseReads()
    ensures ReadAll(PAUSE_PIECES) == PAUSE_TOKENS
  {
  }

  lemma PauseIsSound()
    ensures forall i | 0 <= i < |PAUSE_PIECES| :: Sound(PAUSE_PIECES[i])
  {
  }

  // Running the script.

  lemma {:induction false} RunLine(ts: seq<Token>, rest: seq<Token>, line: seq<Token>, decode: string -> string)
    requires LineEnd !in ts
    ensures
      Run(ts + [LineEnd] + rest, line, decode) ==
      var now := Published(line + ts, decode);
      if now.Some? then Prepend(now.value, Run(rest, [], decode)) else None
  {
    hide Published;
    var all := ts + [LineEnd] + rest;
    if ts == [] {
      assert all[1..] == rest && line + ts == line;
    } else {
      RunLine(ts[1..], rest, line + [ts[0]], decode);
      assert all[1..] == ts[1..] + [LineEnd] + rest && line + [ts[0]] + ts[1..] == line + ts;
    }
  }

  lemma ReadTwo(a: seq<Piece>, b: seq<Piece>)
    ensures ReadAll(a + b) == ReadAll(a) + ReadAll(b)
  {
  }

  lemma PrependNothing<T>(r: Option<seq<T>>)
    ensures Prepend([], r) == r
  {
    assert r.Some? ==> [] + r.value == r.value;
  }

  predicate NoOptions(texts: seq<string>) { forall i | 0 <= i < |texts| :: !IsOption(texts[i]) }

  lemma NoOptionsOfTwo(a: seq<string>, b: seq<string>)
    ensures NoOptions(a + b) <==> NoOptions(a) && NoOptions(b)
  {
    hide IsOption;
    assert forall i | 0 <= i < |a| :: (a + b)[i] == a[i];
    assert forall i | 0 <= i < |b| :: (a + b)[|a| + i] == b[i];
  }

  lemma {:induction false} HeadersReadBack(name: string, values: seq<string>, more: seq<Token>)
    ensures
      var texts, a := HeaderTexts(name, values), ArgsOf(more);
      ArgsOf(ReadAll(HeaderPieces(name, values)) + more) ==
      if NoOptions(texts) && a.Some? then Some(a.value.(headers := texts + a.value.headers)) else None
  {
    hide IsOption, NoOptions, ArgsOf;
    var ps, texts, a := HeaderPieces(name, values), HeaderTexts(name, values), ArgsOf(more);
    NoOptionsIn(name + ":" + (if values == [] then "" else values[0]));
    if values == [] {
      assert ReadAll(ps) + more == more;
      assert a.Some? ==> [] + a.value.headers == a.value.headers;
    } else {
      var text, rest := name + ":" + values[0], HeaderTexts(name, values[1..]);
      var tail := ReadAll(HeaderPieces(name, values[1..])) + more;
      HeadersReadBack(name, values[1..], more);
      HeaderPairReads(text, tail, ReadAll(ps) + more) by {
        assert ReadAll(ps) == [Word("-H"), Word(text)] + ReadAll(HeaderPieces(name, values[1..]));
      }
      NoOptionsOfTwo([text], rest);
      assert a.Some? ==> [text] + (rest + a.value.headers) == texts + a.value.headers;
    }
  }

  lemma NoOptionsIn(text: string)
    ensures NoOptions([]) && (NoOptions([text]) <==> !IsOption(text))
  {
    assert [text][0] == text;
  }

  lemma HeaderPairReads(text: string, tail: seq<Token>, all: seq<Token>)
    requires all == [Word("-H"), Word(text)] + tail
    ensures ArgsOf(all) == if IsOption(text) then None else WithHeader(text, ArgsOf(tail))
  {
    assert all[0] == Word("-H") && all[1] == Word(text) && all[2..] == tail;
  }

  lemma {:induction false} FlagsReadBack(headers: seq<(string, seq<string>)>)
    ensures
      var texts := AllHeaderTexts(headers);
      ArgsOf(ReadAll(FlagPieces(headers))) == if NoOptions(texts) then Some(Args([], texts, false)) else None
  {
    if headers != [] {
      var a, b := HeaderTexts(headers[0].0, headers[0].1), AllHeaderTexts(headers[1..]);
      FlagsReadBack(headers[1..]);
      ReadTwo(HeaderPieces(headers[0].0, headers[0].1), FlagPieces(headers[1..]));
      HeadersReadBack(headers[0].0, headers[0].1, ReadAll(FlagPieces(headers[1..])));
      NoOptionsOfTwo(a, b);
    }
  }

  lemma FlagsStartWithOption(headers: seq<(string, seq<string>)>)
    ensures var ts := ReadAll(FlagPieces(headers)); ts != [] ==> ts[0] == Word("-H")
  {
    if headers != [] {
      FlagsStartWithOption(headers[1..]);
      ReadTwo(HeaderPieces(headers[0].0, headers[0].1), FlagPieces(headers[1..]));
      var first := HeaderPieces(headers[0].0, headers[0].1);
      assert first != [] ==> ReadAll(first)[0] == Word("-H");
      assert first == [] ==> ReadAll(first) + ReadAll(FlagPieces(headers[1..])) == ReadAll(FlagPieces(headers[1..]));
    }
  }

  /** Subject and text before the headers: they are what they are unless they look like options. */
  lemma TwoWordsRead(s: string, t: string, flags: seq<Token>)
    requires flags != [] ==> flags[0] == Word("-H")
    requires ArgsOf(flags).Some? ==> ArgsOf(flags).value.words == []
    ensures
      var a := ArgsOf([Word(s), Word(t)] + flags);
      if !IsOption(s) && !IsOption(t) then a == WithWord(s, WithWord(t, ArgsOf(flags)))
      else a.None? || |a.value.words| != 2 || a.value.stdin
  {
    var all, rest := [Word(s), Word(t)] + flags, [Word(t)] + flags;
    assert all[1..] == rest && rest[1..] == flags && all[2..] == flags;
    assert flags != [] ==> rest[1] == Word("-H") && IsOption("-H");
  }

  /** Subject and --force-stdin before the headers. */
  lemma SubjectReads(s: string, flags: seq<Token>)
    requires ArgsOf(flags).Some? ==> ArgsOf(flags).value.words == []
    ensures
      var a := ArgsOf([Word(s), Word("--force-stdin")] + flags);
      if !IsOption(s) then a == WithWord(s, WithStdin(ArgsOf(flags)))
      else a.None? || |a.value.words| != 1
  {
    var stdin := Word("--force-stdin");
    var all, rest := [Word(s), stdin] + flags, [stdin] + flags;
    assert all[1..] == rest && rest[1..] == flags;
    assert IsOption("--force-stdin");
  }

  /** No word of the row's line that is meant as text looks like an option. */
  predicate OptionFree(r: Row) {
    !IsOption(r.subject) && (!r.binary ==> !IsOption(r.payload)) && NoOptions(AllHeaderTexts(r.headers))
  }

  /** What a row's line publishes: the payload as it is, or what the template engine makes of the decoded bytes. */
  function Sent(r: Row, decode: string -> string): Option<seq<Message>> {
    var content := if r.binary then Render(decode(r.payload)) else Some(r.payload);
    if content.Some? && OptionFree(r) then Some([Message(r.subject, content.value, AllHeaderTexts(r.headers))])
      else None
  }

  lemma EscapeKeepsOptions(s: string)
    ensures IsOption(EscapeTemplate(s)) <==> IsOption(s)
  {
  }

  lemma LinePublishes(r: Row, decode: string -> string)
    ensures Published(ReadAll(LinePieces(r)), decode) == Sent(r, decode)
  {
    hide Published, Sent;
    FlagsReadBack(r.headers);
    FlagsStartWithOption(r.headers);
    ReadTwo(PublishPieces(r), FlagPieces(r.headers));
    PublishReads(r);
    if r.binary {
      BinaryPublishes(r, ReadAll(FlagPieces(r.headers)), decode);
    } else {
      TextPublishes(r, ReadAll(FlagPieces(r.headers)), decode);
    }
  }

  /** The flags of a row read as its headers. */
  predicate FlagsOf(r: Row, flags: seq<Token>) {
    var texts := AllHeaderTexts(r.headers);
    && (flags != [] ==> flags[0] == Word("-H"))
    && ArgsOf(flags) == if NoOptions(texts) then Some(Args([], texts, false)) else None
  }

  lemma BinaryPublishes(r: Row, flags: seq<Token>, decode: string -> string)
    requires r.binary && FlagsOf(r, flags)
    ensures
      Published(
        [Word("printf"), Word("%s"), Word(r.payload), Pipe, Word("base64"), Word("-d"), Pipe,
         Word("nats"), Word("pub"), Word(r.subject), Word("--force-stdin")] + flags, decode) ==
      Sent(r, decode)
  {
    hide Render, IsOption, NoOptions, ArgsOf, AllHeaderTexts;
    var line := [Word("printf"), Word("%s"), Word(r.payload), Pipe, Word("base64"), Word("-d"), Pipe,
                 Word("nats"), Word("pub"), Word(r.subject), Word("--force-stdin")] + flags;
    assert line[9..] == [Word(r.subject), Word("--force-stdin")] + flags;
    SubjectReads(r.subject, flags);
  }

  lemma TextPublishes(r: Row, flags: seq<Token>, decode: string -> string)
    requires !r.binary && FlagsOf(r, flags)
    ensures
      Published([Word("nats"), Word("pub"), Word(r.subject), Word(EscapeTemplate(r.payload))] + flags, decode) ==
      Sent(r, decode)
  {
    hide Render, EscapeTemplate, IsOption, NoOptions, ArgsOf, AllHeaderTexts;
    var subject, body := r.subject, EscapeTemplate(r.payload);
    var line := [Word("nats"), Word("pub"), Word(subject), Word(body)] + flags;
    assert line[2..] == [Word(subject), Word(body)] + flags;
    TwoWordsRead(subject, body, flags);
    EscapeKeepsOptions(r.payload);
    RenderOfEscape(r.payload);
    assert [subject] + ([body] + []) == [subject, body];
    assert line[0] == Word("nats") && line[1] == Word("pub") && line != PAUSE_TOKENS;
  }

  lemma PublishReads(r: Row)
    ensures
      ReadAll(PublishPieces(r)) ==
      if r.binary then
        [Word("printf"), Word("%s"), Word(r.payload), Pipe, Word("base64"), Word("-d"), Pipe,
         Word("nats"), Word("pub"), Word(r.subject), Word("--force-stdin")]
      else
        [Word("nats"), Word("pub"), Word(r.subject), Word(EscapeTemplate(r.payload))]
  {
  }

  function SentAll(rows: seq<Row>, decode: string -> string): Option<seq<Message>> {
    if rows == [] then Some([])
    else
      var now := Sent(rows[0], decode);
      if now.Some? then Prepend(now.value, SentAll(rows[1..], decode)) else None
  }

  lemma RunOneLine(ps: seq<Piece>, rest: string, decode: string -> string)
    requires ps != [] && forall i | 0 <= i < |ps| :: Sound(ps[i])
    ensures
      RunText(Spaced(ps) + "\n" + rest, decode) ==
      var now := Published(ReadAll(ps), decode);
      if now.Some? && Lex(rest, None).Some? then Prepend(now.value, RunText(rest, decode)) else None
  {
    hide Lex, Run, Published, Spaced, Sound;
    LexLine(ps, rest);
    var tokens := Lex(rest, None);
    if tokens.Some? {
      RunLine(ReadAll(ps), tokens.value, [], decode);
      assert [] + ReadAll(ps) == ReadAll(ps);
    }
  }

  /** The text of a script, from its first line and from the script of the other rows. */
  lemma ScriptText(rows: seq<Row>)
    requires rows != []
    ensures
      var rest := TextOf(ScriptLines(rows[1..]));
      TextOf(ScriptLines(rows)) ==
      Spaced(LinePieces(rows[0])) + "\n" + if |rows| > 1 then Spaced(PAUSE_PIECES) + "\n" + rest else rest
  {
    hide Line, PAUSE, PAUSE_PIECES, Spaced, LinePieces;
    LineIsPieces(rows[0]);
    PauseIsPieces();
    var more := ScriptLines(rows[1..]);
    if |rows| > 1 {
      assert ScriptLines(rows) == [Line(rows[0])] + ([PAUSE] + more);
      assert ([PAUSE] + more)[1..] == more;
      assert ScriptLines(rows)[1..] == [PAUSE] + more;
    } else {
      assert ScriptLines(rows)[1..] == more;
    }
  }

  lemma {:induction false} ScriptIsRead(rows: seq<Row>)
    ensures Lex(TextOf(ScriptLines(rows)), None).Some?
  {
    if rows != [] {
      hide Lex, Spaced, ScriptLines, TextOf, LinePieces, PAUSE_PIECES;
      ScriptIsRead(rows[1..]);
      ScriptText(rows);
      LineIsPieces(rows[0]);
      PauseIsSound();
      var rest := TextOf(ScriptLines(rows[1..]));
      LexLine(PAUSE_PIECES, rest);
      LexLine(LinePieces(rows[0]), if |rows| > 1 then Spaced(PAUSE_PIECES) + "\n" + rest else rest);
    }
  }

  /** Run by a shell, the script publishes what its rows send, in order and with their headers, and nothing else. */
  lemma {:induction false} ScriptPublishes(rows: seq<Row>, decode: string -> string)
    ensures RunText(TextOf(ScriptLines(rows)), decode) == SentAll(rows, decode)
  {
    if rows == [] {
      assert TextOf(ScriptLines(rows)) == "";
    } else {
      hide Lex, Spaced, ScriptLines, TextOf, LinePieces, PAUSE_PIECES, RunText, Sent;
      ScriptPublishes(rows[1..], decode);
      ScriptIsRead(rows[1..]);
      ScriptText(rows);
      LineIsPieces(rows[0]);
      LinePublishes(rows[0], decode);
      PauseIsSound();
      PauseReads();
      PauseIsQuiet(decode);
      var rest := TextOf(ScriptLines(rows[1..]));
      RunOneLine(PAUSE_PIECES, rest, decode);
      PrependNothing(RunText(rest, decode));
      LexLine(PAUSE_PIECES, rest);
      RunOneLine(LinePieces(rows[0]), if |rows| > 1 then Spaced(PAUSE_PIECES) + "\n" + rest else rest, decode);
    }
  }

  lemma PauseIsQuiet(decode: string -> string)
    ensures Published(PAUSE_TOKENS, decode) == Some([])
  {
  }

  /** Every row as it was recorded; a binary payload stands for the bytes it encodes. */
  function Recorded(rows: seq<Row>, decode: string -> string): (r: seq<Message>)
    ensures |r| == |rows|
  {
    seq(|rows|, i requires 0 <= i < |rows| =>
      Message(rows[i].subject, if rows[i].binary then decode(rows[i].payload) else rows[i].payload,
              AllHeaderTexts(rows[i].headers)))
  }

  /**
   * The two things that change a row on its way: a word taken for an option, and {{ in the bytes of
   * a binary payload.
   */
  predicate Replayable(r: Row, decode: string -> string) {
    OptionFree(r) && (r.binary ==> !HoldsBraces(decode(r.payload)))
  }

  /** A replay publishes exactly what was recorded if and only if every row is free of both. */
  lemma ReplayIsExactIff(rows: seq<Row>, decode: string -> string)
    ensures
      RunText(TextOf(ScriptLines(rows)), decode) == Some(Recorded(rows, decode)) <==>
      forall i | 0 <= i < |rows| :: Replayable(rows[i], decode)
  {
    hide Render, HoldsBraces, RunText, TextOf, ScriptLines;
    ScriptPublishes(rows, decode);
    SentIsRecordedIff(rows, decode);
  }

  lemma {:induction false} SentIsRecordedIff(rows: seq<Row>, decode: string -> string)
    ensures SentAll(rows, decode) == Some(Recorded(rows, decode)) <==> forall i | 0 <= i < |rows| ::
      Replayable(rows[i], decode)
  {
    hide Render, HoldsBraces, AllHeaderTexts, OptionFree;
    if rows != [] {
      var r, more := rows[0], rows[1..];
      SentIsRecordedIff(more, decode);
      RenderKeepsIffPlain(decode(r.payload));
      var all, rest, now, sent := Recorded(rows, decode), Recorded(more, decode), Sent(r, decode),
        SentAll(more, decode);
      assert all == [all[0]] + rest;
      if now.Some? && sent.Some? {
        assert SentAll(rows, decode) == Some([now.value[0]] + sent.value);
        assert ([now.value[0]] + sent.value)[0] == now.value[0] && ([now.value[0]] + sent.value)[1..] == sent.value;
        assert ([all[0]] + rest)[1..] == rest;
      }
      hide Replayable;
      assert (forall i | 0 <= i < |rows| :: Replayable(rows[i], decode)) <==>
        Replayable(r, decode) && forall i | 0 <= i < |more| :: Replayable(more[i], decode) by {
        assert forall i | 0 < i < |rows| :: rows[i] == more[i - 1];
        assert forall i | 0 <= i < |more| :: more[i] == rows[i + 1];
      }
    }
  }

  /** A negative reading sent as text: its word is taken for an option, and nothing is published. */
  lemma NegativeReadingIsAnOption(decode: string -> string)
    ensures
      var rows := [Row("sensors.outdoor", "-5", false, [])];
      RunText(TextOf(ScriptLines(rows)), decode) == None
        && Recorded(rows, decode) == [Message("sensors.outdoor", "-5", [])]
  {
    hide RunText, TextOf, ScriptLines;
    var rows := [Row("sensors.outdoor", "-5", false, [])];
    ScriptPublishes(rows, decode);
    assert Sent(rows[0], decode) == None;
    assert AllHeaderTexts(rows[0].headers) == [];
    assert Recorded(rows, decode)[0] == Message("sensors.outdoor", "-5", []);
  }
}
