/**
 Quoting strings in elvish syntax, and the proof that the parser undoes it: for every string, every
 requested style and any notion of which characters are printable.
 */
module ElvishQuote {
  import opened Options
  import opened ElvishParser

  // ----- what is written for each character -----

  /** The text `f` writes for each character of `s`, one after the other. */
  function Each(f: char -> string, s: string): string {
    if s == "" then "" else f(s[0]) + Each(f, s[1..])
  }

  function SingleChar(c: char): string {
    if c == '\'' then "''" else [c]
  }

  /** The inverse of the table of simple escapes. */
  function DoubleUnescape(c: char): Option<char> {
    if c == 7 as char then Some('a')
    else if c == 8 as char then Some('b')
    else if c == 12 as char then Some('f')
    else if c == 10 as char then Some('n')
    else if c == 13 as char then Some('r')
    else if c == 9 as char then Some('t')
    else if c == 11 as char then Some('v')
    else if c == '\\' then Some('\\')
    else if c == '\"' then Some('\"')
    else if c == 27 as char then Some('e')
    else None
  }

  lemma UnescapeInvertsEscape(c: char, e: char)
    ensures DoubleUnescape(c) == Some(e) <==> DoubleEscape(e as int) == Some(c)
  {
  }

  function HexChar(d: nat): char
    requires d < 16
  {
    if d <= 9 then ('0' as int + d) as char else ('a' as int + d - 10) as char
  }

  /** `w` hexadecimal digits. */
  function Hex(r: nat, w: nat): (s: string)
    ensures |s| == w
  {
    if w == 0 then "" else Hex(r / 16, w - 1) + [HexChar(r % 16)]
  }

  function DoubleChar(isPrint: int -> bool, c: char): (s: string)
    ensures |s| > 0
  {
    var e := DoubleUnescape(c);
    var r := c as int;
    if e.Some? then ['\\', e.value]
    else if !isPrint(r) then
      if r <= 0xff then "\\x" + Hex(r, 2)
      else if r <= 0xffff then "\\u" + Hex(r, 4)
      else "\\U" + Hex(r, 8)
    else [c]
  }

  function DoubleWriter(isPrint: int -> bool): char -> string {
    c => DoubleChar(isPrint, c)
  }

  function SingleText(s: string): string {
    "'" + Each(SingleChar, s) + "'"
  }

  function DoubleText(isPrint: int -> bool, s: string): string {
    "\"" + Each(DoubleWriter(isPrint), s) + "\""
  }

  predicate AllPrintable(isPrint: int -> bool, s: string) {
    forall i :: 0 <= i < |s| ==> isPrint(s[i] as int)
  }

  predicate IsBareword(isPrint: int -> bool, s: string) {
    && s != "" && s[0] != '~'
    && forall i :: 0 <= i < |s| ==> AllowedInBareword(isPrint, s[i] as int, false)
  }

  function Quoted(isPrint: int -> bool, s: string, q: PrimaryType): (string, PrimaryType) {
    if q == DoubleQuoted then (DoubleText(isPrint, s), DoubleQuoted)
    else if s == "" then ("''", SingleQuoted)
    else if !AllPrintable(isPrint, s) then (DoubleText(isPrint, s), DoubleQuoted)
    else if q == Bareword && IsBareword(isPrint, s) then (s, Bareword)
    else (SingleText(s), SingleQuoted)
  }

  // ----- the code -----

  lemma {:induction false} EachSnoc(f: char -> string, s: string, c: char)
    ensures Each(f, s + [c]) == Each(f, s) + f(c)
    decreases |s|
  {
    if s == "" {
      assert ([c])[1..] == "" && s + [c] == [c];
    } else {
      assert (s + [c])[1..] == s[1..] + [c];
      EachSnoc(f, s[1..], c);
    }
  }

  method QuoteSingle(s: string) returns (text: string)
    ensures text == SingleText(s)
  {
    text := "'";
    for i := 0 to |s|
      invariant text == "'" + Each(SingleChar, s[..i])
    {
      assert s[..i + 1] == s[..i] + [s[i]];
      EachSnoc(SingleChar, s[..i], s[i]);
      text := text + [s[i]];
      if s[i] == '\'' {
        text := text + "'";
      }
    }
    assert s[..|s|] == s;
    text := text + "'";
  }

  /** The digits are filled in from the back. */
  method RToHex(r0: nat, w: nat) returns (digits: array<char>)
    ensures digits[..] == Hex(r0, w)
  {
    digits := new char[w](_ => '0');
    var r := r0;
    for i := w downto 0
      invariant Hex(r0, w) == Hex(r, i) + digits[i..]
    {
      var d := r % 16;
      ghost var done := digits[i + 1..];
      digits[i] := if d <= 9 then ('0' as int + d) as char else ('a' as int + d - 10) as char;
      assert digits[i..] == [HexChar(d)] + done;
      r := r / 16;
    }
  }

  /** What is written for one character. */
  method WriteDouble(isPrint: int -> bool, c: char) returns (text: string)
    ensures text == DoubleChar(isPrint, c)
  {
    hide Hex;
    var r := c as int;
    var e := DoubleUnescape(c);
    if e.Some? {
      text := "\\" + [e.value];
    } else if !isPrint(r) {
      text := "\\";
      var digits;
      if r <= 0xff {
        digits := RToHex(r, 2);
        text := text + "x" + digits[..];
      } else if r <= 0xffff {
        digits := RToHex(r, 4);
        text := text + "u" + digits[..];
      } else {
        digits := RToHex(r, 8);
        text := text + "U" + digits[..];
      }
    } else {
      text := [c];
    }
  }

  method QuoteDouble(isPrint: int -> bool, s: string) returns (text: string)
    ensures text == DoubleText(isPrint, s)
  {
    hide Each, DoubleChar;
    text := "\"";
    ghost var f := DoubleWriter(isPrint);
    assert Each(f, "") == "" by { EachNone(f); }
    for i := 0 to |s|
      invariant text == "\"" + Each(f, s[..i])
    {
      assert s[..i + 1] == s[..i] + [s[i]];
      EachSnoc(f, s[..i], s[i]);
      var piece := WriteDouble(isPrint, s[i]);
      text := text + piece;
    }
    assert s[..|s|] == s;
    text := text + "\"";
  }

  lemma EachNone(f: char -> string)
    ensures Each(f, "") == ""
  {
  }

  method QuoteAs(isPrint: int -> bool, s: string, q: PrimaryType) returns (text: string, kind: PrimaryType)
    ensures (text, kind) == Quoted(isPrint, s, q)
  {
    if q == DoubleQuoted {
      text := QuoteDouble(isPrint, s);
      return text, DoubleQuoted;
    }
    if s == "" {
      return "''", SingleQuoted;
    }
    var bare := s[0] != '~';
    for i := 0 to |s|
      invariant AllPrintable(isPrint, s[..i])
      invariant bare <==> s[0] != '~' && forall j :: 0 <= j < i ==> AllowedInBareword(isPrint, s[j] as int, false)
    {
      if !isPrint(s[i] as int) {
        text := QuoteDouble(isPrint, s);
        return text, DoubleQuoted;
      }
      if !AllowedInBareword(isPrint, s[i] as int, false) {
        bare := false;
      }
    }
    assert s[..|s|] == s;
    if q == Bareword && bare {
      return s, Bareword;
    }
    text := QuoteSingle(s);
    kind := SingleQuoted;
  }

  // ----- the parser reads it back -----

  /** No character is cut. */
  ghost predicate NoCut(p: Ps) {
    forall r :: r in p.cut ==> p.cut[r] <= 0
  }

  /** The text ahead of the parser. */
  function Ahead(p: Ps): string
    requires p.pos <= |p.src|
  {
    p.src[p.pos..]
  }

  function Skip(p: Ps, n: nat): Ps {
    p.(pos := p.pos + n)
  }

  lemma ReadOne(p: Ps, c: char, rest: string)
    requires NoCut(p) && p.pos <= |p.src| && Ahead(p) == [c] + rest
    ensures p.pos < |p.src| && p.src[p.pos] == c
    ensures Peek(p) == c as int && Next(p) == Skip(p, 1)
    ensures Ahead(Skip(p, 1)) == rest
  {
    assert Ahead(p)[0] == c;
    assert Ahead(p)[1..] == rest;
  }

  lemma EachAhead(f: char -> string, s: string, close: char, post: string)
    requires s != ""
    ensures Each(f, s) + [close] + post == f(s[0]) + (Each(f, s[1..]) + [close] + post)
    ensures |Each(f, s)| == |f(s[0])| + |Each(f, s[1..])|
  {
  }

  lemma SinglePlain(p: Ps, c: char, rest: string, buf: string)
    requires NoCut(p) && p.pos <= |p.src| && Ahead(p) == [c] + rest && c != '\''
    ensures p.pos < |p.src| && Ahead(Skip(p, 1)) == rest
    ensures Single(p, buf) == Single(Skip(p, 1), buf + [c])
  {
    ReadOne(p, c, rest);
  }

  lemma SingleDoubled(p: Ps, rest: string, buf: string)
    requires NoCut(p) && p.pos <= |p.src| && Ahead(p) == "''" + rest
    ensures p.pos + 2 <= |p.src| && Ahead(Skip(p, 2)) == rest
    ensures Single(p, buf) == Single(Skip(p, 2), buf + "'")
  {
    assert Ahead(p) == ['\''] + (['\''] + rest);
    ReadOne(p, '\'', ['\''] + rest);
    ReadOne(Skip(p, 1), '\'', rest);
  }

  lemma SingleEnd(p: Ps, post: string, buf: string)
    requires NoCut(p) && p.pos <= |p.src| && Ahead(p) == ['\''] + post && (post == "" || post[0] != '\'')
    ensures Single(p, buf) == (Skip(p, 1), buf)
  {
    ReadOne(p, '\'', post);
  }

  lemma {:induction false} SingleReads(p: Ps, s: string, buf: string, post: string)
    requires NoCut(p) && p.pos <= |p.src| && Ahead(p) == Each(SingleChar, s) + ['\''] + post
    requires post == "" || post[0] != '\''
    ensures Single(p, buf) == (Skip(p, |Each(SingleChar, s)| + 1), buf + s)
    decreases |s|
  {
    hide Single, Ahead;
    if s == "" {
      assert Each(SingleChar, s) + ['\''] + post == ['\''] + post && buf + s == buf;
      SingleEnd(p, post, buf);
    } else {
      var more := Each(SingleChar, s[1..]) + ['\''] + post;
      EachAhead(SingleChar, s, '\'', post);
      if s[0] == '\'' {
        SingleDoubled(p, more, buf);
        SingleReads(Skip(p, 2), s[1..], buf + "'", post);
      } else {
        SinglePlain(p, s[0], more, buf);
        SingleReads(Skip(p, 1), s[1..], buf + [s[0]], post);
      }
      assert buf + [s[0]] + s[1..] == buf + s;
    }
  }

  function Pow16(w: nat): (n: nat)
    ensures n > 0
  {
    if w == 0 then 1 else 16 * Pow16(w - 1)
  }

  /** Reading `n` digits cleanly and then `m` more is reading `n + m`. */
  lemma {:induction false} HexCompose(p: Ps, n: nat, m: nat, acc: nat, v: nat)
    requires HexDigits(p, n, acc) == (Skip(p, n), v)
    ensures HexDigits(p, n + m, acc) == HexDigits(Skip(p, n), m, v)
    decreases n
  {
    if n > 0 {
      var d := HexToDigit(Peek(p));
      if d.Some? {
        assert Next(p) == Skip(p, 1);
        HexCompose(Skip(p, 1), n - 1, m, acc * 16 + d.value, v);
      }
    }
  }

  lemma HexOne(p: Ps, d: nat, post: string, acc: nat)
    requires d < 16 && NoCut(p) && p.pos <= |p.src| && Ahead(p) == [HexChar(d)] + post
    ensures HexDigits(p, 1, acc) == (Skip(p, 1), acc * 16 + d)
  {
    ReadOne(p, HexChar(d), post);
    assert HexDigits(Skip(p, 1), 0, acc * 16 + d) == (Skip(p, 1), acc * 16 + d);
  }

  lemma HexLast(r: nat, w: nat, post: string)
    requires w > 0 && r < Pow16(w)
    ensures Hex(r, w) + post == Hex(r / 16, w - 1) + ([HexChar(r % 16)] + post)
    ensures r / 16 < Pow16(w - 1)
  {
  }

  lemma SkipLead(p: Ps, lead: string, rest: string)
    requires NoCut(p) && p.pos <= |p.src| && Ahead(p) == lead + rest
    ensures NoCut(Skip(p, |lead|)) && p.pos + |lead| <= |p.src| && Ahead(Skip(p, |lead|)) == rest
  {
    assert |Ahead(p)| == |lead| + |rest|;
    assert Ahead(Skip(p, |lead|)) == Ahead(p)[|lead|..];
  }

  lemma HexMore(p: Ps, lead: string, v: nat, d: nat, post: string)
    requires d < 16 && NoCut(p) && p.pos <= |p.src| && Ahead(p) == lead + ([HexChar(d)] + post)
    requires HexDigits(p, |lead|, 0) == (Skip(p, |lead|), v)
    ensures HexDigits(p, |lead| + 1, 0) == (Skip(p, |lead| + 1), v * 16 + d)
  {
    SkipLead(p, lead, [HexChar(d)] + post);
    assert Skip(Skip(p, |lead|), 1) == Skip(p, |lead| + 1);
    hide HexDigits, NoCut, HexChar, Ahead, Skip;
    HexOne(Skip(p, |lead|), d, post, v);
    HexCompose(p, |lead|, 1, 0, v);
  }

  lemma {:induction false} HexReads(p: Ps, r: nat, w: nat, post: string)
    requires NoCut(p) && p.pos <= |p.src| && Ahead(p) == Hex(r, w) + post && r < Pow16(w)
    ensures HexDigits(p, w, 0) == (Skip(p, w), r)
    decreases w
  {
    if w > 0 {
      HexLast(r, w, post);
      hide HexDigits, NoCut, Hex, Pow16, HexChar, Ahead, Skip;
      HexReads(p, r / 16, w - 1, [HexChar(r % 16)] + post);
      HexMore(p, Hex(r / 16, w - 1), r / 16, r % 16, post);
    }
  }

  // ----- double-quoted text -----

  lemma EscapeSimple(p: Ps, c: char, e: char, post: string)
    requires NoCut(p) && p.pos <= |p.src| && Ahead(p) == [e] + post && DoubleUnescape(c) == Some(e)
    ensures Escape(p) == (Skip(p, 1), [c])
  {
    ReadOne(p, e, post);
    UnescapeInvertsEscape(c, e);
  }

  lemma EscapeHex(p: Ps, c: char, letter: char, post: string)
    requires letter == 'x' || letter == 'u' || letter == 'U'
    requires c as int < Pow16(HexWidth(letter as int))
    requires NoCut(p) && p.pos <= |p.src| && Ahead(p) == [letter] + Hex(c as int, HexWidth(letter as int)) + post
    ensures Escape(p) == (Skip(p, 1 + HexWidth(letter as int)), [c])
  {
    hide HexDigits, Hex;
    var w := HexWidth(letter as int);
    assert Ahead(p) == [letter] + (Hex(c as int, w) + post);
    ReadOne(p, letter, Hex(c as int, w) + post);
    HexReads(Skip(p, 1), c as int, w, post);
  }

  /** What was written for one character is read back as that character. */
  lemma DoubleOne(isPrint: int -> bool, p: Ps, c: char, buf: string, rest: string)
    requires NoCut(p) && p.pos <= |p.src| && Ahead(p) == DoubleChar(isPrint, c) + rest
    ensures
      var n := |DoubleChar(isPrint, c)|;
      p.pos + n <= |p.src| && Ahead(Skip(p, n)) == rest && Double(p, buf) == Double(Skip(p, n), buf + [c])
  {
    hide Hex, Double, NoCut;
    var t := DoubleChar(isPrint, c);
    assert Ahead(Skip(p, |t|)) == Ahead(p)[|t|..];
    if DoubleUnescape(c).Some? {
      DoubleSimple(p, c, DoubleUnescape(c).value, buf, rest);
    } else if !isPrint(c as int) {
      WidthsSuffice(c);
      DoubleHex(p, c, t[1], buf, rest);
    } else {
      DoublePlain(p, c, buf, rest);
    }
  }

  lemma DoublePlain(p: Ps, c: char, buf: string, rest: string)
    requires NoCut(p) && p.pos <= |p.src| && Ahead(p) == [c] + rest && DoubleUnescape(c).None?
    ensures Double(p, buf) == Double(Skip(p, 1), buf + [c])
  {
    ReadOne(p, c, rest);
  }

  lemma DoubleSimple(p: Ps, c: char, e: char, buf: string, rest: string)
    requires NoCut(p) && p.pos <= |p.src| && Ahead(p) == ['\\', e] + rest && DoubleUnescape(c) == Some(e)
    ensures Double(p, buf) == Double(Skip(p, 2), buf + [c])
  {
    hide Double, Escape, Peek, Next;
    assert Ahead(p) == ['\\'] + ([e] + rest);
    ReadOne(p, '\\', [e] + rest);
    DoubleEscapes(p, buf);
    EscapeSimple(Skip(p, 1), c, e, rest);
  }

  lemma DoubleHex(p: Ps, c: char, letter: char, buf: string, rest: string)
    requires letter == 'x' || letter == 'u' || letter == 'U'
    requires c as int < Pow16(HexWidth(letter as int))
    requires NoCut(p) && p.pos <= |p.src| && Ahead(p) == ['\\', letter] + Hex(c as int, HexWidth(letter as int)) + rest
    ensures Double(p, buf) == Double(Skip(p, 2 + HexWidth(letter as int)), buf + [c])
  {
    hide Double, Escape, Peek, Next, Hex, Pow16;
    var more := [letter] + Hex(c as int, HexWidth(letter as int)) + rest;
    assert Ahead(p) == ['\\'] + more;
    ReadOne(p, '\\', more);
    DoubleEscapes(p, buf);
    EscapeHex(Skip(p, 1), c, letter, rest);
  }

  lemma DoubleEscapes(p: Ps, buf: string)
    requires p.pos < |p.src| && Peek(p) == '\\' as int
    ensures Double(p, buf) == Double(Escape(Next(p)).0, buf + Escape(Next(p)).1)
  {
    hide Escape;
  }

  lemma WidthsSuffice(c: char)
    ensures c as int <= 0xff ==> (c as int) < Pow16(2)
    ensures c as int <= 0xffff ==> (c as int) < Pow16(4)
    ensures (c as int) < Pow16(8)
  {
    assert Pow16(2) == 0x100;
    assert Pow16(4) == 0x1_0000;
    assert Pow16(6) == 0x100_0000;
    assert Pow16(8) == 0x1_0000_0000;
  }

  lemma DoubleEnd(p: Ps, post: string, buf: string)
    requires NoCut(p) && p.pos <= |p.src| && Ahead(p) == ['\"'] + post
    ensures Double(p, buf) == (Skip(p, 1), buf)
  {
    ReadOne(p, '\"', post);
  }

  lemma {:induction false} DoubleReads(isPrint: int -> bool, p: Ps, s: string, buf: string, post: string)
    requires NoCut(p) && p.pos <= |p.src| && Ahead(p) == Each(DoubleWriter(isPrint), s) + ['\"'] + post
    ensures Double(p, buf) == (Skip(p, |Each(DoubleWriter(isPrint), s)| + 1), buf + s)
    decreases |s|
  {
    hide Double, Ahead, DoubleChar;
    var f := DoubleWriter(isPrint);
    if s == "" {
      assert Each(f, s) + ['\"'] + post == ['\"'] + post && buf + s == buf;
      DoubleEnd(p, post, buf);
    } else {
      EachAhead(f, s, '\"', post);
      DoubleOne(isPrint, p, s[0], buf, Each(f, s[1..]) + ['\"'] + post);
      var q := Skip(p, |f(s[0])|);
      DoubleReads(isPrint, q, s[1..], buf + [s[0]], post);
      assert buf + [s[0]] + s[1..] == buf + s;
    }
  }

  // ----- the round trip -----

  lemma {:induction false} BarewordReads(isPrint: int -> bool, p: Ps, s: string, post: string, head: bool)
    requires NoCut(p) && p.pos <= |p.src| && Ahead(p) == s + post
    requires forall i :: 0 <= i < |s| ==> AllowedInBareword(isPrint, s[i] as int, false)
    requires post == "" || !AllowedInBareword(isPrint, post[0] as int, head)
    ensures BarewordEnd(isPrint, p, head) == Skip(p, |s|)
    decreases |s|
  {
    if s == "" {
      assert Ahead(p) == post;
      if post != "" {
        assert post == [post[0]] + post[1..];
        ReadOne(p, post[0], post[1..]);
      }
    } else {
      assert s + post == [s[0]] + (s[1..] + post);
      ReadOne(p, s[0], s[1..] + post);
      BarewordReads(isPrint, Skip(p, 1), s[1..], post, head);
    }
  }

  /** What follows the quoted text: the end, or a character that cannot start a primary. */
  predicate Stops(isPrint: int -> bool, post: string, head: bool) {
    post == "" || !StartsPrimary(isPrint, post[0] as int, head)
  }

  lemma StopPeek(isPrint: int -> bool, p: Ps, post: string, head: bool)
    requires NoCut(p) && p.pos <= |p.src| && Ahead(p) == post && Stops(isPrint, post, head)
    ensures !StartsPrimary(isPrint, Peek(p), head) && Peek(p) != '[' as int && Peek(p) != '\'' as int
  {
    EofIsNoWord(isPrint, head);
    if post != "" {
      assert post == [post[0]] + post[1..];
      ReadOne(p, post[0], post[1..]);
    }
  }

  /** One primary is read, and it is the quoted string. */
  lemma PrimaryReads(isPrint: int -> bool, p: Ps, s: string, q: PrimaryType, post: string, head: bool)
    requires NoCut(p) && p.pos <= |p.src| && Ahead(p) == Quoted(isPrint, s, q).0 + post && Stops(isPrint, post, head)
    ensures
      var t := Quoted(isPrint, s, q);
      && t.0 != "" && t.0[0] != '~' && p.pos < |p.src| && Peek(p) == t.0[0] as int
      && StartsPrimary(isPrint, Peek(p), head)
      && ParsePrimary(isPrint, p, head) == Parsed(Skip(p, |t.0|), Primary(t.1, s))
  {
    hide Single, Double, BarewordEnd, Peek, Next, NoCut;
    var t := Quoted(isPrint, s, q);
    FirstRune(isPrint, p, s, q, post);
    match t.1
    case Bareword =>
      BarewordReads(isPrint, p, s, post, head);
      assert p.src[p.pos..p.pos + |s|] == Ahead(p)[..|s|];
    case SingleQuoted =>
      SingleTextReads(p, s, post);
    case DoubleQuoted =>
      DoubleTextReads(isPrint, p, s, post);
  }

  lemma FirstRune(isPrint: int -> bool, p: Ps, s: string, q: PrimaryType, post: string)
    requires NoCut(p) && p.pos <= |p.src| && Ahead(p) == Quoted(isPrint, s, q).0 + post
    ensures
      var t := Quoted(isPrint, s, q);
      && t.0 != "" && p.pos < |p.src| && Peek(p) == t.0[0] as int && !t.1.Tilde?
      && (t.1.Bareword? ==> t.0 == s && IsBareword(isPrint, s))
      && (t.1.SingleQuoted? ==> t.0 == SingleText(s) && t.0[0] == '\'')
      && (t.1.DoubleQuoted? ==> t.0 == DoubleText(isPrint, s) && t.0[0] == '\"')
  {
    var t := Quoted(isPrint, s, q).0;
    assert s == "" ==> SingleText(s) == "''";
    assert t + post == [t[0]] + (t[1..] + post);
    ReadOne(p, t[0], t[1..] + post);
  }

  lemma SingleTextReads(p: Ps, s: string, post: string)
    requires NoCut(p) && p.pos <= |p.src| && Ahead(p) == SingleText(s) + post && (post == "" || post[0] != '\'')
    ensures Single(Next(p), "") == (Skip(p, |SingleText(s)|), s)
  {
    hide Single, Each;
    var more := Each(SingleChar, s) + ['\''] + post;
    assert SingleText(s) + post == ['\''] + more;
    ReadOne(p, '\'', more);
    SingleReads(Skip(p, 1), s, "", post);
    assert "" + s == s;
  }

  lemma DoubleTextReads(isPrint: int -> bool, p: Ps, s: string, post: string)
    requires NoCut(p) && p.pos <= |p.src| && Ahead(p) == DoubleText(isPrint, s) + post
    ensures Double(Next(p), "") == (Skip(p, |DoubleText(isPrint, s)|), s)
  {
    hide Double, Each;
    var more := Each(DoubleWriter(isPrint), s) + ['\"'] + post;
    assert DoubleText(isPrint, s) + post == ['\"'] + more;
    ReadOne(p, '\"', more);
    DoubleReads(isPrint, Skip(p, 1), s, "", post);
    assert "" + s == s;
  }

  /** For every string, every requested style, every notion of printability, wherever the text stands and
      whether or not a command head is expected: followed by the end of the text or by anything that
      cannot start a primary, the quoted text parses as a compound of exactly one string, the original
      one, in the style that quoting reported, without an error and without reading any further. */
  lemma QuoteRoundTrip(isPrint: int -> bool, s: string, q: PrimaryType, p: Ps, pre: string, post: string, head: bool)
    requires NoCut(p) && p.src == pre + Quoted(isPrint, s, q).0 + post && p.pos == |pre|
    requires Stops(isPrint, post, head)
    ensures
      var t := Quoted(isPrint, s, q);
      ParseCompound(isPrint, p, head) == Parsed(p.(pos := |pre| + |t.0|), [Primary(t.1, s)])
  {
    hide ParsePrimary, Quoted, StartsPrimary;
    var t := Quoted(isPrint, s, q);
    assert Ahead(p) == t.0 + post;
    PrimaryReads(isPrint, p, s, q, post, head);
    var p' := Skip(p, |t.0|);
    assert Ahead(p') == post;
    StopPeek(isPrint, p', post, head);
    assert [] + [Primary(t.1, s)] == [Primary(t.1, s)];
    assert ParseIndexings(isPrint, p', head, [Primary(t.1, s)]) == Parsed(p', [Primary(t.1, s)]);
  }

  /** A space always stops. */
  lemma SpaceStops(isPrint: int -> bool, post: string, head: bool)
    requires post == "" || post[0] == ' '
    ensures Stops(isPrint, post, head)
  {
  }

  // ----- which style is chosen -----

  lemma {:induction false} IndexingsKeepFirst(isPrint: int -> bool, p: Ps, head: bool, acc: seq<Primary>)
    ensures
      var o := ParseIndexings(isPrint, p, head, acc);
      o.Parsed? ==> acc <= o.value
    decreases |p.src| - p.pos
  {
    hide ParsePrimary, StartsPrimary, AllowedInBareword;
    if StartsPrimary(isPrint, Peek(p), head) && p.pos < |p.src| {
      var o := ParseIndexing(isPrint, p, head);
      if o.Parsed? {
        IndexingsKeepFirst(isPrint, o.ps, head, acc + [o.value]);
      }
    }
  }

  /** A bareword that reaches the end consists of allowed characters. */
  lemma {:induction false} BarewordAllowed(isPrint: int -> bool, p: Ps, head: bool)
    requires p.pos <= |p.src| && BarewordEnd(isPrint, p, head).pos == |p.src|
    ensures forall i :: p.pos <= i < |p.src| ==> AllowedInBareword(isPrint, p.src[i] as int, head)
    decreases |p.src| - p.pos
  {
    if p.pos < |p.src| {
      hide AllowedInBareword;
      EofIsNoWord(isPrint, head);
      BarewordAllowed(isPrint, Next(p), head);
    }
  }

  /** The text on its own parses as one bareword, which is all of it. */
  ghost predicate ReadsAsBareword(isPrint: int -> bool, s: string) {
    var p := Ps(s, 0, 0, map[], []);
    ParseCompound(isPrint, p, false) == Parsed(Skip(p, |s|), [Primary(Bareword, s)])
  }

  lemma {:induction false} ReadsAsBarewordIff(isPrint: int -> bool, s: string)
    ensures ReadsAsBareword(isPrint, s) <==> IsBareword(isPrint, s)
  {
    var p := Ps(s, 0, 0, map[], []);
    assert Ahead(p) == s;
    if IsBareword(isPrint, s) {
      BarewordParses(isPrint, s);
    }
    if ReadsAsBareword(isPrint, s) {
      OnlyBarewordsParse(isPrint, s);
    }
  }

  lemma {:induction false} BarewordParses(isPrint: int -> bool, s: string)
    requires IsBareword(isPrint, s)
    ensures ReadsAsBareword(isPrint, s)
  {
    hide AllowedInBareword, BarewordEnd, StartsPrimary;
    var p := Ps(s, 0, 0, map[], []);
    assert Ahead(p) == s + "";
    assert s == [s[0]] + s[1..];
    ReadOne(p, s[0], s[1..]);
    BarewordReads(isPrint, p, s, "", false);
    var q := Skip(p, |s|);
    assert Ahead(q) == "";
    EofIsNoWord(isPrint, false);
    BarewordStarts(isPrint, s[0] as int);
    assert s[0..|s|] == s;
    assert ParsePrimary(isPrint, p, false) == Parsed(q, Primary(Bareword, s));
    assert [] + [Primary(Bareword, s)] == [Primary(Bareword, s)];
    assert ParseIndexings(isPrint, q, false, [Primary(Bareword, s)]) == Parsed(q, [Primary(Bareword, s)]);
  }

  lemma BarewordStarts(isPrint: int -> bool, r: int)
    requires AllowedInBareword(isPrint, r, false)
    ensures StartsPrimary(isPrint, r, false)
  {
  }

  lemma {:induction false} TildeIsNoBareword(isPrint: int -> bool, s: string)
    requires s != "" && s[0] == '~'
    ensures !ReadsAsBareword(isPrint, s)
  {
    hide ParseIndexings;
    var p := Ps(s, 0, 0, map[], []);
    IndexingsKeepFirst(isPrint, Next(p), false, [Primary(Tilde, "~")]);
    var o := ParseIndexings(isPrint, Next(p), false, [Primary(Tilde, "~")]);
    if o.Parsed? {
      assert o.value[0] == Primary(Tilde, "~");
    }
  }

  lemma {:induction false} OnlyBarewordsParse(isPrint: int -> bool, s: string)
    requires ReadsAsBareword(isPrint, s)
    ensures IsBareword(isPrint, s)
  {
    hide AllowedInBareword, BarewordEnd, StartsPrimary, Single, Double;
    var p := Ps(s, 0, 0, map[], []);
    if s != "" && s[0] == '~' {
      TildeIsNoBareword(isPrint, s);
    } else {
      var o := ParseIndexing(isPrint, p, false);
      IndexingsKeepFirst(isPrint, o.ps, false, [] + [o.value]);
      assert [Primary(Bareword, s)][0] == ([] + [o.value])[0];
      BarewordAllowed(isPrint, p, false);
    }
  }

  /** Double quotes are used on request and for a character that cannot be shown, and for nothing else. The
      text stays bare exactly when that is asked for, all of it can be shown, and the parser reads the text
      itself as one bareword. All else is single-quoted. */
  lemma StyleIff(isPrint: int -> bool, s: string, q: PrimaryType)
    ensures
      var (text, kind) := Quoted(isPrint, s, q);
      && (kind == DoubleQuoted <==> q == DoubleQuoted || exists i :: 0 <= i < |s| && !isPrint(s[i] as int))
      && (kind == Bareword <==>
            q == Bareword && ReadsAsBareword(isPrint, s) && forall i :: 0 <= i < |s| ==> isPrint(s[i] as int))
      && (kind != DoubleQuoted && kind != Bareword ==> kind == SingleQuoted)
      && (kind == Bareword ==> text == s)
  {
    hide ReadsAsBareword, IsBareword, DoubleText, SingleText;
    ReadsAsBarewordIff(isPrint, s);
    EmptyIsNoBareword(isPrint);
  }

  lemma EmptyIsNoBareword(isPrint: int -> bool)
    ensures !IsBareword(isPrint, "")
  {
  }

  // ----- tables -----

  const BAREWORD_SYMBOLS := "-_:%+,./=@~!\\"

  predicate IsAlphanumeric(c: char) {
    '0' <= c <= '9' || 'a' <= c <= 'z' || 'A' <= c <= 'Z'
  }

  /** Which ASCII characters a bareword may have; the command head may also have `<`, `>`, `*` and `^`. Beyond
      ASCII it may have whatever can be shown. */
  lemma BarewordTable(isPrint: int -> bool, c: char)
    ensures c as int < 0x80 ==>
      (AllowedInBareword(isPrint, c as int, false) <==> IsAlphanumeric(c) || c in BAREWORD_SYMBOLS)
    ensures c as int < 0x80 ==>
      (AllowedInBareword(isPrint, c as int, true) <==> IsAlphanumeric(c) || c in BAREWORD_SYMBOLS || c in "<>*^")
    ensures c as int >= 0x80 ==> (AllowedInBareword(isPrint, c as int, false) <==> isPrint(c as int))
  {
    var t, u := BAREWORD_SYMBOLS, "<>*^";
    assert t[0] == '-' && t[1] == '_' && t[2] == ':' && t[3] == '%' && t[4] == '+' && t[5] == ',' && t[6] == '.';
    assert t[7] == '/' && t[8] == '=' && t[9] == '@' && t[10] == '~' && t[11] == '!' && t[12] == '\\';
    assert u[0] == '<' && u[1] == '>' && u[2] == '*' && u[3] == '^';
  }

  /** What a primary can begin with, outside the command head. */
  lemma StartTable(isPrint: int -> bool, c: char)
    ensures StartsPrimary(isPrint, c as int, false) <==>
      AllowedInBareword(isPrint, c as int, false) || c in "'\"$?*(`[{"
  {
    var t := "'\"$?*(`[{";
    assert t[0] == '\'' && t[1] == '\"' && t[2] == '$' && t[3] == '?' && t[4] == '*';
    assert t[5] == '(' && t[6] == '`' && t[7] == '[' && t[8] == '{';
  }

  /** A tilde in front is a part of its own. */
  lemma {:induction false} TildeThenWord(isPrint: int -> bool, w: string)
    requires w != "" && forall i :: 0 <= i < |w| ==> AllowedInBareword(isPrint, w[i] as int, false)
    ensures
      var p := Ps("~" + w, 0, 0, map[], []);
      ParseCompound(isPrint, p, false) == Parsed(Skip(p, 1 + |w|), [Primary(Tilde, "~"), Primary(Bareword, w)])
  {
    hide AllowedInBareword, BarewordEnd, StartsPrimary;
    var p := Ps("~" + w, 0, 0, map[], []);
    assert Ahead(p) == ['~'] + w;
    ReadOne(p, '~', w);
    var p1, acc := Skip(p, 1), [Primary(Tilde, "~")];
    assert w == [w[0]] + w[1..] && w + "" == w;
    ReadOne(p1, w[0], w[1..]);
    BarewordReads(isPrint, p1, w, "", false);
    var q := Skip(p, 1 + |w|);
    assert Ahead(q) == "" && Skip(p1, |w|) == q;
    EofIsNoWord(isPrint, false);
    BarewordStarts(isPrint, w[0] as int);
    assert p.src[1..1 + |w|] == w;
    assert ParsePrimary(isPrint, p1, false) == Parsed(q, Primary(Bareword, w));
    assert acc + [Primary(Bareword, w)] == [Primary(Tilde, "~"), Primary(Bareword, w)];
    assert ParseIndexings(isPrint, q, false, acc + [Primary(Bareword, w)]) == Parsed(q, acc + [Primary(Bareword, w)]);
  }

  /** The letters of the simple escapes and the characters they stand for: bell, backspace, form feed, new
      line, carriage return, tab, vertical tab, backslash, double quote and escape. */
  lemma EscapeTable(c: char)
    ensures
      var letters, codes := "abfnrtv\\\"e", [7, 8, 12, 10, 13, 9, 11, 92, 34, 27];
      && (forall i :: 0 <= i < 10 ==> DoubleEscape(letters[i] as int) == Some(codes[i] as char))
      && (c !in letters ==> DoubleEscape(c as int) == None)
  {
    var letters := "abfnrtv\\\"e";
    assert letters[0] == 'a' && letters[1] == 'b' && letters[2] == 'f' && letters[3] == 'n' && letters[4] == 'r';
    assert letters[5] == 't' && letters[6] == 'v' && letters[7] == '\\' && letters[8] == '\"' && letters[9] == 'e';
  }

  // ----- escapes that the writer never makes -----

  function OctChar(d: nat): char
    requires d < 8
  {
    ('0' as int + d) as char
  }

  /** Three octal digits are read as their value. */
  lemma OctalReads(p: Ps, a: nat, b: nat, c: nat, post: string)
    requires NoCut(p) && p.pos <= |p.src| && a < 8 && b < 8 && c < 8
    requires Ahead(p) == [OctChar(a)] + ([OctChar(b)] + ([OctChar(c)] + post))
    ensures Escape(p) == (Skip(p, 3), [(64 * a + 8 * b + c) as char])
  {
    ReadOne(p, OctChar(a), [OctChar(b)] + ([OctChar(c)] + post));
    ReadOne(Skip(p, 1), OctChar(b), [OctChar(c)] + post);
    ReadOne(Skip(p, 2), OctChar(c), post);
    OctStep(Skip(p, 1), 1, a, b);
    OctStep(Skip(p, 2), 0, 8 * a + b, c);
    hide OctDigits, NoCut, Ahead;
    assert Skip(Skip(p, 1), 1) == Skip(p, 2) && Skip(Skip(p, 2), 1) == Skip(p, 3);
  }

  lemma OctStep(p: Ps, n: nat, acc: nat, d: nat)
    requires d < 8 && Peek(p) == OctChar(d) as int && Next(p) == Skip(p, 1)
    ensures OctDigits(p, n + 1, acc) == OctDigits(Skip(p, 1), n, 8 * acc + d)
    ensures OctDigits(p, 0, acc) == (p, acc) && OctDigits(Skip(p, 1), 0, 8 * acc + d) == (Skip(p, 1), 8 * acc + d)
  {
  }

  /** A control escape is read as its letter less 0x40, from `@` to `_`. */
  lemma ControlReads(p: Ps, letter: char, c: char, post: string)
    requires NoCut(p) && p.pos <= |p.src| && (letter == 'c' || letter == '^') && 0x40 <= c as int < 0x60
    requires Ahead(p) == [letter] + ([c] + post)
    ensures Escape(p) == (Skip(p, 2), [(c as int - 0x40) as char])
  {
    ReadOne(p, letter, [c] + post);
    ReadOne(Skip(p, 1), c, post);
    assert Skip(Skip(p, 1), 1) == Skip(p, 2);
  }

  /** Hexadecimal digits are read in either case. */
  lemma HexTable(d: nat)
    requires d < 16
    ensures HexToDigit("0123456789abcdef"[d] as int) == Some(d)
    ensures HexToDigit("0123456789ABCDEF"[d] as int) == Some(d)
  {
  }

  /** What is written for a character between double quotes: two characters for one with a letter of its own,
      the shortest hexadecimal form that has room for one that cannot be shown, and itself otherwise. */
  lemma DoubleCharForm(isPrint: int -> bool, c: char)
    ensures
      var t, r := DoubleChar(isPrint, c), c as int;
      if r in [7, 8, 9, 10, 11, 12, 13, 27, 34, 92] then |t| == 2 && t[0] == '\\'
      else if isPrint(r) then t == [c]
      else
        && t[0] == '\\' && |t| == (if r < 0x100 then 4 else if r < 0x1_0000 then 6 else 10)
        && t[1] == if r < 0x100 then 'x' else if r < 0x1_0000 then 'u' else 'U'
  {
    hide Hex;
    var codes := [7, 8, 9, 10, 11, 12, 13, 27, 34, 92];
    assert codes[0] == 7 && codes[1] == 8 && codes[2] == 9 && codes[3] == 10 && codes[4] == 11;
    assert codes[5] == 12 && codes[6] == 13 && codes[7] == 27 && codes[8] == 34 && codes[9] == 92;
    assert '\"' as int == 34 && '\\' as int == 92;
  }

  // ----- what is reported -----

  /** An unknown escape is reported where it stands and stands for nothing; reading goes on behind it. */
  lemma UnknownEscape(p: Ps, c: char, post: string)
    requires NoCut(p) && p.pos <= |p.src| && p.overEof == 0 && Ahead(p) == [c] + post
    requires c !in "abfnrtv\\\"e" && c !in "c^xuU" && !('0' <= c <= '7')
    ensures Escape(p) == (Skip(p, 1).(errors := p.errors + [ErrorAt(p.pos, p.pos + 1, InvalidEscape)]), "")
  {
    ReadOne(p, c, post);
    EscapeTable(c);
    var kinds := "c^xuU";
    assert kinds[0] == 'c' && kinds[1] == '^' && kinds[2] == 'x' && kinds[3] == 'u' && kinds[4] == 'U';
  }

  /** What cannot go on an escape is reported where it stands, and the digits before it count. */
  lemma DigitsStop(p: Ps, c: char, post: string, n: nat, acc: nat)
    requires NoCut(p) && p.pos <= |p.src| && p.overEof == 0 && Ahead(p) == [c] + post && n > 0
    ensures HexToDigit(c as int) == None ==>
      HexDigits(p, n, acc) == (p.(errors := p.errors + [ErrorAt(p.pos, p.pos + 1, InvalidEscapeHex)]), acc)
    ensures !('0' <= c <= '7') ==>
      OctDigits(p, n, acc) == (p.(errors := p.errors + [ErrorAt(p.pos, p.pos + 1, InvalidEscapeOct)]), acc)
  {
    ReadOne(p, c, post);
  }

  /** So is what cannot be a control character, and reading goes on behind it. */
  lemma ControlRefused(p: Ps, letter: char, c: char, post: string)
    requires NoCut(p) && p.pos <= |p.src| && p.overEof == 0 && (letter == 'c' || letter == '^')
    requires !(0x40 <= c as int < 0x60) && Ahead(p) == [letter] + ([c] + post)
    ensures Escape(p).0 == Skip(p, 2).(errors := p.errors + [ErrorAt(p.pos + 1, p.pos + 2, InvalidEscapeControl)])
  {
    ReadOne(p, letter, [c] + post);
    ReadOne(Skip(p, 1), c, post);
  }

  lemma SingleAtEnd(p: Ps, buf: string)
    requires p.pos == |p.src|
    ensures Single(p, buf) ==
      (p.(overEof := p.overEof + 1, errors := p.errors + [ErrorAt(p.pos, p.pos, StringUnterminated)]), buf)
  {
  }

  /** A single-quoted text that is never closed is read to the end, and that is reported there. */
  lemma {:induction false} UnterminatedSingle(p: Ps, s: string, buf: string)
    requires NoCut(p) && p.pos <= |p.src| && Ahead(p) == Each(SingleChar, s)
    ensures
      var end := Skip(p, |Each(SingleChar, s)|);
      Single(p, buf) ==
        (end.(overEof := p.overEof + 1, errors := p.errors + [ErrorAt(|p.src|, |p.src|, StringUnterminated)]), buf + s)
    decreases |s|
  {
    hide Single;
    if s == "" {
      assert p.pos == |p.src| && buf + s == buf;
      SingleAtEnd(p, buf);
    } else {
      var more := Each(SingleChar, s[1..]);
      if s[0] == '\'' {
        SingleDoubled(p, more, buf);
        UnterminatedSingle(Skip(p, 2), s[1..], buf + "'");
      } else {
        SinglePlain(p, s[0], more, buf);
        UnterminatedSingle(Skip(p, 1), s[1..], buf + [s[0]]);
      }
      assert buf + [s[0]] + s[1..] == buf + s;
    }
  }

  lemma DoubleAtEnd(p: Ps, buf: string)
    requires p.pos == |p.src|
    ensures Double(p, buf) ==
      (p.(overEof := p.overEof + 1, errors := p.errors + [ErrorAt(p.pos, p.pos, StringUnterminated)]), buf)
  {
  }

  /** The same of a double-quoted one. */
  lemma {:induction false} UnterminatedDouble(isPrint: int -> bool, p: Ps, s: string, buf: string)
    requires NoCut(p) && p.pos <= |p.src| && Ahead(p) == Each(DoubleWriter(isPrint), s)
    ensures
      var end := Skip(p, |Each(DoubleWriter(isPrint), s)|);
      Double(p, buf) ==
        (end.(overEof := p.overEof + 1, errors := p.errors + [ErrorAt(|p.src|, |p.src|, StringUnterminated)]), buf + s)
    decreases |s|
  {
    hide Double, DoubleChar;
    var f := DoubleWriter(isPrint);
    if s == "" {
      assert p.pos == |p.src| && buf + s == buf;
      DoubleAtEnd(p, buf);
    } else {
      DoubleOne(isPrint, p, s[0], buf, Each(f, s[1..]));
      UnterminatedDouble(isPrint, Skip(p, |f(s[0])|), s[1..], buf + [s[0]]);
      assert buf + [s[0]] + s[1..] == buf + s;
    }
  }
}
