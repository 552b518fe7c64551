/** reader.c, get_literal and get_name: how names and literals are spelled in the
    symbol table. A literal is written out anew from its characters, so that it has
    one name, however it was written in the grammar. */
module Words {
  const UNDEFINED := -1

  /** A name or a literal as the symbol table knows it; code is the character of a
      literal of one character, and else UNDEFINED. */
  datatype Word = Word(text: string, code: int)

  /** Literals stand in quotes, and no name does. */
  predicate IsLiteral(text: string) {
    text != "" && (text[0] == '\'' || text[0] == '"')
  }

  predicate IsByte(c: int) {
    0 <= c < 256
  }

  predicate Bytes(s: seq<int>) {
    forall i :: 0 <= i < |s| ==> IsByte(s[i])
  }

  // ----- one character

  function Octal(c: int): (s: string)
    requires IsByte(c)
    ensures |s| == 4
  {
    ['\\', (c / 64 + 48) as char, (c / 8 % 8 + 48) as char, (c % 8 + 48) as char]
  }

  /** The letter of an escape sequence; the null character for none. */
  function EscapeLetter(c: int): char {
    if c == 7 then 'a' else if c == 8 then 'b' else if c == 12 then 'f' else if c == 10 then 'n'
    else if c == 13 then 'r' else if c == 9 then 't' else if c == 11 then 'v' else '\0'
  }

  /** A character as it stands between the quotes. */
  function Escape(c: int, quote: char): (s: string)
    requires IsByte(c)
    ensures s != ""
  {
    if c == '\\' as int || c == quote as int then ['\\', c as char]
    else if 32 <= c < 127 then [c as char]
    else if EscapeLetter(c) != '\0' then ['\\', EscapeLetter(c)]
    else Octal(c)
  }

  // ----- a literal

  ghost function Body(s: seq<int>, quote: char): string
    requires Bytes(s)
  {
    if s == [] then "" else Escape(s[0], quote) + Body(s[1..], quote)
  }

  function QuoteFor(s: seq<int>): char {
    if |s| == 1 then '\'' else '"'
  }

  /** Single quotes are for one character. */
  ghost function LiteralText(s: seq<int>): (t: string)
    requires Bytes(s)
    ensures IsLiteral(t)
  {
    [QuoteFor(s)] + Body(s, QuoteFor(s)) + [QuoteFor(s)]
  }

  lemma {:induction false} BodyAppend(s: seq<int>, c: int, quote: char)
    requires Bytes(s) && IsByte(c)
    ensures Body(s + [c], quote) == Body(s, quote) + Escape(c, quote)
  {
    if s == [] {
      assert [c][1..] == [] && [] + [c] == [c];
    } else {
      BodyAppend(s[1..], c, quote);
      assert (s + [c])[0] == s[0] && (s + [c])[1..] == s[1..] + [c];
    }
  }

  // ----- a literal has one name

  /** The character that an escaped text begins with. */
  function FirstOf(t: string, quote: char): int
    requires |t| >= 4
  {
    if t[0] != '\\' then t[0] as int
    else if t[1] == '\\' || t[1] == quote then t[1] as int
    else if t[1] == 'a' then 7 else if t[1] == 'b' then 8 else if t[1] == 'f' then 12 else if t[1] == 'n' then 10
    else if t[1] == 'r' then 13 else if t[1] == 't' then 9 else if t[1] == 'v' then 11
    else 64 * (t[1] as int - 48) + 8 * (t[2] as int - 48) + (t[3] as int - 48)
  }

  lemma OctalDigits(c: int)
    requires IsByte(c)
    ensures c == 64 * (c / 64) + 8 * (c / 8 % 8) + c % 8 && c / 64 < 4
  {
  }

  lemma FirstIs(c: int, quote: char, x: string)
    requires IsByte(c) && quote in {'\'', '"'} && |x| >= 4
    ensures FirstOf(Escape(c, quote) + x, quote) == c
  {
    OctalDigits(c);
    var e := Escape(c, quote);
    var t := e + x;
    assert forall i :: 0 <= i < |e| ==> t[i] == e[i];
  }

  lemma EscapesApart(c: int, d: int, quote: char, x: string, y: string)
    requires IsByte(c) && IsByte(d) && quote in {'\'', '"'} && Escape(c, quote) + x == Escape(d, quote) + y
    ensures c == d && x == y
  {
    var pad := "    ";
    FirstIs(c, quote, x + pad);
    FirstIs(d, quote, y + pad);
    assert Escape(c, quote) + (x + pad) == Escape(c, quote) + x + pad && Escape(d, quote) + (y + pad) == Escape(d, quote) + y + pad;
    assert x == (Escape(c, quote) + x)[|Escape(c, quote)|..] && y == (Escape(d, quote) + y)[|Escape(d, quote)|..];
  }

  /** Only the quote that ends it stands unescaped. */
  lemma BodyStarts(s: seq<int>, quote: char)
    requires Bytes(s) && quote in {'\'', '"'}
    ensures (Body(s, quote) + [quote])[0] == quote <==> s == []
  {
    if s != [] {
      var e := Escape(s[0], quote);
      assert e[0] != quote && (Body(s, quote) + [quote])[0] == e[0];
    }
  }

  lemma {:induction false} BodiesApart(s: seq<int>, t: seq<int>, quote: char)
    requires Bytes(s) && Bytes(t) && quote in {'\'', '"'} && Body(s, quote) + [quote] == Body(t, quote) + [quote]
    ensures s == t
  {
    hide Escape;
    BodyStarts(s, quote);
    BodyStarts(t, quote);
    if s != [] {
      var x, y := Body(s[1..], quote) + [quote], Body(t[1..], quote) + [quote];
      assert Body(s, quote) + [quote] == Escape(s[0], quote) + x && Body(t, quote) + [quote] == Escape(t[0], quote) + y;
      EscapesApart(s[0], t[0], quote, x, y);
      BodiesApart(s[1..], t[1..], quote);
      assert s == [s[0]] + s[1..] && t == [t[0]] + t[1..];
    }
  }

  /** Two literals have the same name only if they have the same characters. */
  lemma LiteralsApart(s: seq<int>, t: seq<int>)
    requires Bytes(s) && Bytes(t) && LiteralText(s) == LiteralText(t)
    ensures s == t
  {
    hide Body;
    var p, q, a, b := QuoteFor(s), QuoteFor(t), Body(s, QuoteFor(s)), Body(t, QuoteFor(t));
    assert LiteralText(s)[0] == p && LiteralText(t)[0] == q;
    assert LiteralText(s)[1..] == a + [p] && LiteralText(t)[1..] == b + [q];
    BodiesApart(s, t, p);
  }

  /** The character of the literal of that name, if it has a single one. */
  ghost function CodeOf(text: string): int {
    if exists c :: IsByte(c) && text == LiteralText([c]) then
      var c :| IsByte(c) && text == LiteralText([c]);
      c
    else UNDEFINED
  }

  /** The code of a name is that of its literal. */
  lemma CodeIs(s: seq<int>)
    requires Bytes(s)
    ensures CodeOf(LiteralText(s)) == if |s| == 1 then s[0] else UNDEFINED
  {
    hide LiteralText;
    if |s| == 1 {
      assert s == [s[0]];
      assert IsByte(s[0]);
    }
    if c :| IsByte(c) && LiteralText(s) == LiteralText([c]) {
      LiteralsApart(s, [c]);
    }
    forall c | IsByte(c) && LiteralText(s) == LiteralText([c]) ensures s == [c] {
      LiteralsApart(s, [c]);
    }
  }

  /** The word has the code of its name. */
  ghost predicate Spelled(w: Word) {
    w.code == CodeOf(w.text)
  }

  lemma NameHasNone(text: string)
    requires !IsLiteral(text)
    ensures CodeOf(text) == UNDEFINED
  {
  }

  // ----- the loops

  /** cachec in the loop of get_literal, for one character. */
  method PutChar(text0: string, c: int, quote: char) returns (text: string)
    requires IsByte(c) && quote in {'\'', '"'}
    ensures text == text0 + Escape(c, quote)
  {
    if c == '\\' as int || c == quote as int {
      text := text0 + ['\\'] + [c as char];
    } else if 32 <= c < 127 {
      text := text0 + [c as char];
    } else {
      text := text0 + ['\\'];
      match c {
        case 7 => text := text + ['a'];
        case 8 => text := text + ['b'];
        case 12 => text := text + ['f'];
        case 10 => text := text + ['n'];
        case 13 => text := text + ['r'];
        case 9 => text := text + ['t'];
        case 11 => text := text + ['v'];
        case _ =>
          text := text + [(c / 64 % 8 + 48) as char];
          text := text + [(c / 8 % 8 + 48) as char];
          text := text + [(c % 8 + 48) as char];
      }
    }
  }

  /** get_literal, from the characters between the quotes. */
  method GetLiteral(s: seq<int>) returns (w: Word)
    requires Bytes(s)
    ensures w.text == LiteralText(s) && w.code == (if |s| == 1 then s[0] else UNDEFINED) && Spelled(w)
  {
    CodeIs(s);
    hide Escape, CodeOf;
    var n, quote := |s|, if |s| == 1 then '\'' else '"';
    var text := [quote];
    assert s[..0] == [];
    for i := 0 to n
      invariant text == [quote] + Body(s[..i], quote)
    {
      BodyAppend(s[..i], s[i], quote);
      assert s[..i] + [s[i]] == s[..i + 1];
      text := PutChar(text, s[i], quote);
    }
    assert s[..n] == s;
    w := Word(text + [quote], if n == 1 then s[0] else UNDEFINED);
  }

  /** get_name, from the characters of an identifier. */
  method GetName(text: string) returns (w: Word)
    requires !IsLiteral(text)
    ensures w.text == text && Spelled(w)
  {
    NameHasNone(text);
    w := Word(text, UNDEFINED);
  }
}
