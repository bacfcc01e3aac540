/** The line level of `_parse_minimal_yaml`: comments, indentation, keys and scalar coercion. */
module YamlText {
  import opened Prelude
  import opened PyText

  datatype Scalar = Str(text: string) | Int(number: int) | Bool(flag: bool)

  /** What a line that survives comment and blank removal says. */
  datatype Body =
    | Item(text: string)             // `- ...`
    | Open(key: string)              // `key:`
    | Leaf(key: string, value: Scalar)  // `key: value`
    | Other                          // no colon: ignored

  datatype Line = Line(indent: nat, body: Body)

  function Lower(s: string): (r: string)
    ensures |r| == |s|
  {
    seq(|s|, i requires 0 <= i < |s| => if 'A' <= s[i] <= 'Z' then s[i] + 32 as char else s[i])
  }

  /** Python's `s[1:-1]`. */
  function Unquote(s: string): string {
    if |s| < 2 then "" else s[1..|s| - 1]
  }

  predicate Quoted(s: string, quote: char) {
    s != "" && s[0] == quote && s[|s| - 1] == quote
  }

  function Coerce(text: string): Scalar {
    var s := Strip(text);
    if Quoted(s, '"') then Str(Unquote(s))
    else if Quoted(s, '\'') then Str(Unquote(s))
    else if Lower(s) == "true" || Lower(s) == "yes" then Bool(true)
    else if Lower(s) == "false" || Lower(s) == "no" then Bool(false)
    else
      match ReadInt(s)
      case Some(n) => Int(n)
      case None => Str(s)
  }

  function Spaces(n: nat): (s: string)
    ensures |s| == n && forall i | 0 <= i < n :: s[i] == ' '
  {
    seq(n, _ => ' ')
  }

  function CountSpaces(s: string): (n: nat)
    ensures n <= |s| && s[..n] == Spaces(n)
    ensures n < |s| ==> s[n] != ' '
  {
    if s == "" || s[0] != ' ' then 0
    else
      var rest := CountSpaces(s[1..]);
      assert s[..1 + rest] == [s[0]] + s[1..][..rest];
      1 + rest
  }

  function ReadBody(body: string): Body {
    if "- " <= body then Item(body[2..])
    else
      var i := Find(body, ':');
      if i == |body| then Other
      else
        var key, value := Strip(body[..i]), Strip(body[i + 1..]);
        if value == "" then Open(key) else Leaf(key, Coerce(value))
  }

  /** A raw line without its comment and trailing space. */
  function Content(raw: string): string {
    StripRight(raw[..Find(raw, '#')])
  }

  /** None for a line the parser skips. */
  function ReadLine(raw: string): Option<Line> {
    ReadContent(Content(raw))
  }

  function ReadContent(stripped: string): Option<Line> {
    if Strip(stripped) == "" then None
    else
      var indent := CountSpaces(stripped);
      Some(Line(indent, ReadBody(stripped[indent..])))
  }

  function ReadLines(rows: seq<string>): seq<Line> {
    if rows == [] then []
    else
      var init := ReadLines(rows[..|rows| - 1]);
      match ReadLine(rows[|rows| - 1])
      case None => init
      case Some(line) => init + [line]
  }

  /** The lines of a text that say something. */
  function LinesOf(text: string): seq<Line> {
    ReadLines(SplitLines(text))
  }

  lemma {:induction false} ReadLinesAppend(a: seq<string>, b: seq<string>)
    ensures ReadLines(a + b) == ReadLines(a) + ReadLines(b)
    decreases |b|
  {
    hide ReadLine;
    if b == [] {
      assert a + b == a && ReadLines(a) + [] == ReadLines(a);
    } else {
      ReadLinesAppend(a, b[..|b| - 1]);
      assert (a + b)[..|a + b| - 1] == a + b[..|b| - 1];
    }
  }

  // ---- blank lines and indentation ----

  /** Nothing but space before the comment or the end of the line. */
  ghost predicate Blank(raw: string) {
    forall i | 0 <= i < |raw| && '#' !in raw[..i + 1] :: IsSpace(raw[i])
  }

  lemma {:induction false} StripAllSpace(s: string)
    requires forall i | 0 <= i < |s| :: IsSpace(s[i])
    ensures StripRight(s) == ""
    decreases |s|
  {
    if s == "" {
    } else {
      StripAllSpace(s[..|s| - 1]);
    }
  }

  lemma BlankSkipped(raw: string)
    requires Blank(raw)
    ensures ReadLine(raw) == None
  {
    var n := Find(raw, '#');
    forall i | 0 <= i < n
      ensures IsSpace(raw[..n][i])
    {
      assert raw[..i + 1] == raw[..n][..i + 1];
    }
    StripAllSpace(raw[..n]);
  }

  lemma {:induction false} BlanksSkipped(blanks: seq<string>)
    requires forall i | 0 <= i < |blanks| :: Blank(blanks[i])
    ensures ReadLines(blanks) == []
  {
    if blanks == [] {
    } else {
      BlanksSkipped(blanks[..|blanks| - 1]);
      BlankSkipped(blanks[|blanks| - 1]);
    }
  }

  lemma {:induction false} FindBehindSpaces(n: nat, s: string, c: char)
    requires c != ' '
    ensures Find(Spaces(n) + s, c) == n + Find(s, c)
  {
    if n == 0 {
      assert Spaces(0) + s == s;
    } else {
      FindBehindSpaces(n - 1, s, c);
      assert (Spaces(n) + s)[1..] == Spaces(n - 1) + s;
    }
  }

  lemma {:induction false} StripBehindSpaces(n: nat, s: string)
    ensures StripRight(Spaces(n) + s) == if StripRight(s) == "" then "" else Spaces(n) + StripRight(s)
    decreases |s|
  {
    var p := Spaces(n);
    if s == "" {
      assert p + s == p;
      StripAllSpace(p);
    } else {
      hide IsSpace, StripRight, Spaces;
      StripBothOnce(p, s);
      if IsSpace(s[|s| - 1]) {
        StripBehindSpaces(n, s[..|s| - 1]);
      }
    }
  }

  lemma StripBothOnce(p: string, s: string)
    requires s != ""
    ensures !IsSpace(s[|s| - 1]) ==> StripRight(s) == s && StripRight(p + s) == p + s
    ensures IsSpace(s[|s| - 1]) ==>
              StripRight(s) == StripRight(s[..|s| - 1]) && StripRight(p + s) == StripRight(p + s[..|s| - 1])
  {
    hide IsSpace;
    LastOfConcat(p, s);
  }

  lemma {:induction false} CountBehindSpaces(n: nat, s: string)
    requires s == "" || s[0] != ' '
    ensures CountSpaces(Spaces(n) + s) == n
  {
    if n == 0 {
      assert Spaces(0) + s == s;
    } else {
      CountBehindSpaces(n - 1, s);
      assert (Spaces(n) + s)[1..] == Spaces(n - 1) + s;
    }
  }

  lemma StripKeepsText(s: string)
    requires s != "" && !IsSpace(s[|s| - 1])
    ensures Strip(s) != ""
  {
    StripLeftKeepsEnd(s);
  }

  lemma {:induction false} StripLeftKeepsEnd(s: string)
    requires s != "" && !IsSpace(s[|s| - 1])
    ensures StripLeft(s) != "" && StripLeft(s)[|StripLeft(s)| - 1] == s[|s| - 1]
  {
    if !IsSpace(s[0]) {
    } else {
      StripLeftKeepsEnd(s[1..]);
    }
  }

  /** A line written with `n` leading spaces reads as the same line at indent `n`. */
  lemma IndentedLine(n: nat, rest: string)
    requires rest == "" || rest[0] != ' '
    ensures ReadLine(Spaces(n) + rest) ==
            match ReadLine(rest)
            case None => None
            case Some(line) => Some(Line(n, line.body))
  {
    hide IsSpace, StripRight, Strip, Spaces, ReadBody, CountSpaces, Content;
    ContentBehindSpaces(n, rest);
    ContentStart(rest);
    if Content(rest) == "" {
      StripNothing();
    } else {
      ReadIndented(n, Content(rest));
      ReadIndented(0, Content(rest));
      assert Spaces(0) + Content(rest) == Content(rest);
    }
  }

  lemma StripNothing()
    ensures Strip("") == ""
  {
  }

  lemma ContentStart(raw: string)
    ensures Content(raw) != "" ==> raw != "" && Content(raw)[0] == raw[0] && !IsSpace(Content(raw)[|Content(raw)| - 1])
  {
  }

  lemma ContentBehindSpaces(n: nat, rest: string)
    ensures Content(Spaces(n) + rest) == if Content(rest) == "" then "" else Spaces(n) + Content(rest)
  {
    hide IsSpace, StripRight, Find, Spaces;
    var i := Find(rest, '#');
    FindBehindSpaces(n, rest, '#');
    assert (Spaces(n) + rest)[..n + i] == Spaces(n) + rest[..i];
    StripBehindSpaces(n, rest[..i]);
  }

  lemma ReadIndented(n: nat, content: string)
    requires content != "" && content[0] != ' ' && !IsSpace(content[|content| - 1])
    ensures ReadContent(Spaces(n) + content) == Some(Line(n, ReadBody(content)))
  {
    hide ReadBody;
    var stripped := Spaces(n) + content;
    assert stripped[|stripped| - 1] == content[|content| - 1];
    StripKeepsText(stripped);
    CountBehindSpaces(n, content);
    assert stripped[n..] == content;
  }

  // ---- what a value and a line say ----

  /** The text is the word, each letter in either case. */
  ghost predicate InAnyCase(s: string, word: string) {
    |s| == |word| && forall i | 0 <= i < |s| ::
      s[i] == word[i] || ('a' <= word[i] <= 'z' && s[i] as int + 32 == word[i] as int)
  }

  ghost predicate MeansYes(s: string) {
    InAnyCase(s, "true") || InAnyCase(s, "yes")
  }

  ghost predicate MeansNo(s: string) {
    InAnyCase(s, "false") || InAnyCase(s, "no")
  }

  /** The text between the two quotes of `s`. A single quote mark counts as both. */
  ghost predicate InQuotes(s: string, text: string) {
    s == "\"" + text + "\"" || s == "'" + text + "'" || (text == "" && (s == "\"" || s == "'"))
  }

  /** `s`, without space around it, stands for `v`: text in either kind of quotes for that text, a word for a
      flag, a number for itself, and anything else for itself as text. */
  ghost predicate Stands(s: string, v: Scalar) {
    match v
    case Str(text) => InQuotes(s, text) || (text == s && !Quotes(s) && !MeansYes(s) && !MeansNo(s) && ReadInt(s).None?)
    case Bool(flag) => if flag then MeansYes(s) else MeansNo(s)
    case Int(number) => !Quotes(s) && !MeansYes(s) && !MeansNo(s) && ReadInt(s) == Some(number)
  }

  ghost predicate Quotes(s: string) {
    exists text :: InQuotes(s, text)
  }

  lemma LowerIs(s: string, word: string)
    requires forall i | 0 <= i < |word| :: 'a' <= word[i] <= 'z'
    ensures Lower(s) == word <==> InAnyCase(s, word)
  {
    if InAnyCase(s, word) {
      assert Lower(s) == word;
    }
    if Lower(s) == word {
      forall i | 0 <= i < |s|
        ensures s[i] == word[i] || s[i] as int + 32 == word[i] as int
      {
        assert Lower(s)[i] == word[i];
      }
    }
  }

  lemma QuotedIs(s: string, text: string)
    ensures InQuotes(s, text) <==> (Quoted(s, '"') || Quoted(s, '\'')) && text == Unquote(s)
  {
    if Quoted(s, '"') && |s| >= 2 {
      assert s == "\"" + s[1..|s| - 1] + "\"";
    }
    if Quoted(s, '\'') && |s| >= 2 {
      assert s == "'" + s[1..|s| - 1] + "'";
    }
    if s == "\"" + text + "\"" || s == "'" + text + "'" {
      assert s[1..|s| - 1] == text;
    }
  }

  lemma WordsUnquoted(s: string)
    requires MeansYes(s) || MeansNo(s)
    ensures !Quoted(s, '"') && !Quoted(s, '\'') && !(MeansYes(s) && MeansNo(s))
  {
    assert "true"[0] == 't' && "yes"[0] == 'y' && "false"[0] == 'f' && "no"[0] == 'n';
  }

  /** Exactly what a value is stored as. */
  lemma CoerceIff(text: string, v: Scalar)
    ensures Coerce(text) == v <==> Stands(Strip(text), v)
  {
    hide Strip, ReadInt, Lower, Unquote, InQuotes, Quoted, InAnyCase;
    var s := Strip(text);
    LowerIs(s, "true");
    LowerIs(s, "yes");
    LowerIs(s, "false");
    LowerIs(s, "no");
    QuotesAre(s);
    if v.Str? {
      QuotedIs(s, v.text);
    }
    if MeansYes(s) || MeansNo(s) {
      WordsUnquoted(s);
    }
  }

  lemma QuotesAre(s: string)
    ensures Quotes(s) <==> Quoted(s, '"') || Quoted(s, '\'')
  {
    hide InQuotes, Quoted;
    QuotedIs(s, Unquote(s));
    if text :| InQuotes(s, text) {
      QuotedIs(s, text);
    }
  }

  /** What a line says, past its indent and without its comment: a list item after `- `; a key up to the first
      colon, with nothing or a value behind it; or nothing the parser looks at. */
  lemma BodyMeans(body: string, key: string, after: string)
    ensures ReadBody("- " + body) == Item(body)
    ensures !("- " <= key + ":" + after) && ':' !in key ==>
              ReadBody(key + ":" + after) ==
                if Strip(after) == "" then Open(Strip(key)) else Leaf(Strip(key), Coerce(Strip(after)))
    ensures !("- " <= body) && ':' !in body ==> ReadBody(body) == Other
  {
    hide Coerce, Strip, Find;
    assert ("- " + body)[2..] == body;
    if ':' !in key {
      FindAfter(key, ':', after);
      var line := key + ":" + after;
      assert line[..|key|] == key && line[|key| + 1..] == after;
    }
  }

  /** Whatever follows the first hash is a comment, in quotes or not; so is space at the end. */
  lemma CommentDropped(line: string, comment: string)
    requires '#' !in line
    ensures ReadLine(line + "#" + comment) == ReadLine(line)
  {
    hide ReadContent, Find;
    FindAfter(line, '#', comment);
    assert (line + "#" + comment)[..|line|] == line;
    assert Find(line, '#') == |line| && line[..|line|] == line;
  }
}
