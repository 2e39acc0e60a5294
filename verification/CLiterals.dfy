/** String literals: how the emitter spells a text, and what C reads where it is spelled that way. */
module CLiterals {
  import opened Options

  // ----- spelling

  /** `replace` of a single character. */
  function Replace(s: string, c: char, with: string): string {
    if s == "" then "" else (if s[0] == c then with else [s[0]]) + Replace(s[1..], c, with)
  }

  /** The backslashes go first, so that those of the other escapes stay single. */
  function EscapeCString(s: string): string {
    Replace(Replace(Replace(Replace(s, '\\', "\\\\"), '\"', "\\\""), '\n', "\\n"), '\t', "\\t")
  }

  // ----- reading

  /** A character behind a backslash; the other escapes of C are never emitted. */
  function Escaped(c: char): Option<char> {
    if c == 'n' then Some('\n')
    else if c == 't' then Some('\t')
    else if c == '\\' || c == '\"' then Some(c)
    else None
  }

  /** What may stand between the quotes as it is: neither a quote nor the end of the line or of the text. */
  predicate Bare(c: char) {
    c != '\\' && c != '\"' && c != '\n' && c != '\r' && c != '\0'
  }

  /** What the spelling between two quotes denotes. */
  function ReadLiteral(spelled: string): Option<string>
    decreases |spelled|
  {
    if spelled == "" then Some("")
    else if spelled[0] == '\\' then
      if |spelled| < 2 then None else
      var c :- Escaped(spelled[1]);
      var rest :- ReadLiteral(spelled[2..]);
      Some([c] + rest)
    else if !Bare(spelled[0]) then None
    else
      var rest :- ReadLiteral(spelled[1..]);
      Some([spelled[0]] + rest)
  }

  /** Text that a literal can hold: a NUL would end it, and a carriage return is not escaped. */
  predicate Quotable(text: string) {
    '\0' !in text && '\r' !in text
  }

  // ----- one character at a time

  function Spelling(c: char): string {
    if c == '\\' then "\\\\" else if c == '\"' then "\\\"" else if c == '\n' then "\\n"
    else if c == '\t' then "\\t" else [c]
  }

  lemma {:induction false} ReplaceAppend(a: string, b: string, c: char, with: string)
    ensures Replace(a + b, c, with) == Replace(a, c, with) + Replace(b, c, with)
  {
    if a == "" {
      assert a + b == b;
    } else {
      assert (a + b)[1..] == a[1..] + b;
      ReplaceAppend(a[1..], b, c, with);
    }
  }

  lemma ReplaceOne(x: char, c: char, with: string)
    ensures Replace([x], c, with) == if x == c then with else [x]
  {
    assert [x][1..] == "" && Replace("", c, with) == "";
  }

  lemma ReplaceTwo(x: char, y: char, c: char, with: string)
    requires x != c && y != c
    ensures Replace([x, y], c, with) == [x, y]
  {
    ReplaceOne(x, c, with);
    ReplaceOne(y, c, with);
    ReplaceAppend([x], [y], c, with);
    assert [x] + [y] == [x, y];
  }

  lemma EscapeOne(c: char)
    ensures EscapeCString([c]) == Spelling(c)
  {
    ReplaceOne(c, '\\', "\\\\");
    ReplaceOne(c, '\"', "\\\"");
    ReplaceOne(c, '\n', "\\n");
    ReplaceOne(c, '\t', "\\t");
    ReplaceTwo('\\', '\\', '\"', "\\\"");
    ReplaceTwo('\\', '\\', '\n', "\\n");
    ReplaceTwo('\\', '\\', '\t', "\\t");
    ReplaceTwo('\\', '\"', '\n', "\\n");
    ReplaceTwo('\\', '\"', '\t', "\\t");
    ReplaceTwo('\\', 'n', '\t', "\\t");
    hide Replace;
  }

  lemma EscapeAppend(a: string, b: string)
    ensures EscapeCString(a + b) == EscapeCString(a) + EscapeCString(b)
  {
    hide Replace;
    var a1, b1 := Replace(a, '\\', "\\\\"), Replace(b, '\\', "\\\\");
    ReplaceAppend(a, b, '\\', "\\\\");
    ReplaceAppend(a1, b1, '\"', "\\\"");
    var a2, b2 := Replace(a1, '\"', "\\\""), Replace(b1, '\"', "\\\"");
    ReplaceAppend(a2, b2, '\n', "\\n");
    var a3, b3 := Replace(a2, '\n', "\\n"), Replace(b2, '\n', "\\n");
    ReplaceAppend(a3, b3, '\t', "\\t");
  }

  lemma ReadSpelling(c: char, rest: string)
    ensures ReadLiteral(Spelling(c) + rest)
         == if c == '\0' || c == '\r' || ReadLiteral(rest).None? then None
            else Some([c] + ReadLiteral(rest).value)
  {
    var s := Spelling(c) + rest;
    if |Spelling(c)| == 2 {
      assert s[2..] == rest;
    } else {
      assert s[1..] == rest;
    }
  }

  /** C reads a literal back as the text exactly when that holds no NUL and no carriage return. */
  lemma {:induction false} LiteralReadsBack(text: string)
    ensures ReadLiteral(EscapeCString(text)) == if Quotable(text) then Some(text) else None
  {
    if text == "" {
    } else {
      LiteralReadsBack(text[1..]);
      EscapeOne(text[0]);
      assert text == [text[0]] + text[1..];
      EscapeAppend([text[0]], text[1..]);
      ReadSpelling(text[0], EscapeCString(text[1..]));
      hide EscapeCString, ReadLiteral, Spelling;
    }
  }
}
