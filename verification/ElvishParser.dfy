/**
 The part of the elvish parser that reads strings: a compound of barewords, single-quoted and
 double-quoted primaries. Source text is a sequence of characters, so positions count characters.
 A rune is an `int`, with -1 for the end of the text or a character of the current cutset.
 Each parse method of the class is proved to compute the function of the same purpose.
 */
module ElvishParser {
  import opened Options

  const EOF := -1

  datatype ParseError =
    | StringUnterminated
    | InvalidEscape
    | InvalidEscapeOct
    | InvalidEscapeHex
    | InvalidEscapeControl
    | ShouldBePrimary

  datatype ErrorAt = ErrorAt(begin: nat, end: nat, error: ParseError)

  /** The parser's state, with the current cutset. */
  datatype Ps = Ps(src: string, pos: nat, overEof: nat, cut: map<int, int>, errors: seq<ErrorAt>)

  datatype PrimaryType = Bareword | SingleQuoted | DoubleQuoted | Tilde

  datatype Primary = Primary(kind: PrimaryType, value: string)

  ghost predicate Ok(p: Ps) {
    p.pos <= |p.src|
  }

  // ----- peek, next, backup -----

  function Peek(p: Ps): int {
    if p.pos >= |p.src| then EOF
    else
      var r := p.src[p.pos] as int;
      if r in p.cut && p.cut[r] > 0 then EOF else r
  }

  function Next(p: Ps): (q: Ps)
    ensures q == p.(pos := q.pos, overEof := q.overEof) && p.pos <= q.pos <= p.pos + 1 && (Ok(p) ==> Ok(q))
  {
    if p.pos >= |p.src| then p.(overEof := p.overEof + 1)
    else if Peek(p) == EOF then p
    else p.(pos := p.pos + 1)
  }

  function Backup(p: Ps): (q: Ps)
    ensures q == p.(pos := q.pos, overEof := q.overEof) && q.pos <= p.pos <= q.pos + 1
  {
    if p.overEof > 0 then p.(overEof := p.overEof - 1)
    else if p.pos > 0 then p.(pos := p.pos - 1)
    else p
  }

  /** Stepping back undoes the last step, also at the end of the text. */
  lemma BackupUndoesNext(p: Ps)
    requires p.pos <= |p.src| && (p.pos < |p.src| ==> Peek(p) != EOF && p.overEof == 0)
    ensures Backup(Next(p)) == p
  {
  }

  /** A character of the cutset reads as the end, and is not passed. */
  lemma CutReadsAsEnd(p: Ps)
    requires p.pos < |p.src| && p.src[p.pos] as int in p.cut && p.cut[p.src[p.pos] as int] > 0
    ensures Peek(p) == EOF && Next(p) == p
  {
  }

  function Complain(p: Ps, e: ParseError): Ps {
    p.(errors := p.errors + [ErrorAt(p.pos, if p.pos < |p.src| then p.pos + 1 else p.pos, e)])
  }

  // ----- character classes -----

  predicate AllowedInVariableName(isPrint: int -> bool, r: int) {
    || (r >= 0x80 && isPrint(r))
    || '0' as int <= r <= '9' as int
    || 'a' as int <= r <= 'z' as int
    || 'A' as int <= r <= 'Z' as int
    || r == '-' as int || r == '_' as int || r == ':' as int || r == '&' as int
  }

  predicate AllowedInBareword(isPrint: int -> bool, r: int, head: bool) {
    || (r != '&' as int && AllowedInVariableName(isPrint, r))
    || r == '%' as int || r == '+' as int || r == ',' as int || r == '.' as int
    || r == '/' as int || r == '=' as int || r == '@' as int || r == '~' as int || r == '!' as int || r == '\\' as int
    || (head && (r == '<' as int || r == '>' as int || r == '*' as int || r == '^' as int))
  }

  predicate StartsPrimary(isPrint: int -> bool, r: int, head: bool) {
    || r == '\'' as int || r == '\"' as int || r == '$' as int || AllowedInBareword(isPrint, r, head)
    || r == '?' as int || r == '*' as int || r == '(' as int || r == '`' as int || r == '[' as int || r == '{' as int
  }

  // ----- single-quoted -----

  /** After the opening quote: the state at the end and the text read. */
  function Single(p: Ps, buf: string): (r: (Ps, string))
    ensures r.0.pos >= p.pos && r.0.src == p.src && r.0.cut == p.cut && (Ok(p) ==> Ok(r.0))
    decreases |p.src| - p.pos
  {
    var r, p1 := Peek(p), Next(p);
    if r == EOF then (Complain(p1, StringUnterminated), buf)
    else if r == '\'' as int then
      if Peek(p1) == '\'' as int then Single(Next(p1), buf + "'") else (p1, buf)
    else Single(p1, buf + [p.src[p.pos]])
  }

  // ----- double-quoted -----

  /** The simple escapes. */
  function DoubleEscape(r: int): Option<char> {
    if r == 'a' as int then Some(7 as char)
    else if r == 'b' as int then Some(8 as char)
    else if r == 'f' as int then Some(12 as char)
    else if r == 'n' as int then Some(10 as char)
    else if r == 'r' as int then Some(13 as char)
    else if r == 't' as int then Some(9 as char)
    else if r == 'v' as int then Some(11 as char)
    else if r == '\\' as int then Some('\\')
    else if r == '\"' as int then Some('\"')
    else if r == 'e' as int then Some(27 as char)
    else None
  }

  function HexToDigit(r: int): Option<nat> {
    if '0' as int <= r <= '9' as int then Some(r - '0' as int)
    else if 'a' as int <= r <= 'f' as int then Some(r - 'a' as int + 10)
    else if 'A' as int <= r <= 'F' as int then Some(r - 'A' as int + 10)
    else None
  }

  /** `WriteRune`: a number that is no character is written as the replacement character. */
  function RuneToChar(r: int): char {
    if 0 <= r < 0xD800 || 0xE000 <= r < 0x11_0000 then r as char else 0xFFFD as char
  }

  /** `WriteByte(byte(r - 0x40))`. */
  function ControlChar(r: int): char {
    ((r - 0x40) % 0x100) as char
  }

  /** Up to `n` more hexadecimal digits. */
  function HexDigits(p: Ps, n: nat, acc: nat): (r: (Ps, nat))
    ensures r.0.src == p.src && r.0.cut == p.cut && (Ok(p) ==> Ok(r.0)) && r.0.pos + 1 >= p.pos
    decreases n
  {
    if n == 0 then (p, acc)
    else
      var d := HexToDigit(Peek(p));
      if d.None? then (Complain(Backup(Next(p)), InvalidEscapeHex), acc)
      else HexDigits(Next(p), n - 1, acc * 16 + d.value)
  }

  function OctDigits(p: Ps, n: nat, acc: nat): (r: (Ps, nat))
    ensures r.0.src == p.src && r.0.cut == p.cut && (Ok(p) ==> Ok(r.0)) && r.0.pos + 1 >= p.pos
    decreases n
  {
    if n == 0 then (p, acc)
    else
      var r := Peek(p);
      if r < '0' as int || r > '7' as int then (Complain(Backup(Next(p)), InvalidEscapeOct), acc)
      else OctDigits(Next(p), n - 1, acc * 8 + (r - '0' as int))
  }

  function HexWidth(r: int): nat {
    if r == 'x' as int then 2 else if r == 'u' as int then 4 else 8
  }

  /** A rune that cannot follow: step back, complain, step over it again. */
  function Refuse(p: Ps, e: ParseError): (q: Ps)
    ensures q.src == p.src && q.cut == p.cut && (Ok(p) ==> Ok(q)) && q.pos + 1 >= p.pos
  {
    Next(Complain(Backup(p), e))
  }

  function ControlEscape(p: Ps): (r: (Ps, string))
    ensures r.0.src == p.src && r.0.cut == p.cut && (Ok(p) ==> Ok(r.0)) && r.0.pos + 1 >= p.pos
  {
    var r, p1 := Peek(p), Next(p);
    (if r < 0x40 || r >= 0x60 then Refuse(p1, InvalidEscapeControl) else p1, [ControlChar(r)])
  }

  /** After a backslash: the state at the end of the escape and the text it stands for. */
  function Escape(p: Ps): (r: (Ps, string))
    ensures r.0.src == p.src && r.0.cut == p.cut && (Ok(p) ==> Ok(r.0))
  {
    var r, p1 := Peek(p), Next(p);
    if r == 'c' as int || r == '^' as int then ControlEscape(p1)
    else if r == 'x' as int || r == 'u' as int || r == 'U' as int then
      var h := HexDigits(p1, HexWidth(r), 0);
      (h.0, [RuneToChar(h.1)])
    else if '0' as int <= r <= '7' as int then
      var o := OctDigits(p1, 2, r - '0' as int);
      (o.0, [RuneToChar(o.1)])
    else
      var e := DoubleEscape(r);
      if e.Some? then (p1, [e.value]) else (Refuse(p1, InvalidEscape), "")
  }

  /** An escape never ends before the backslash it started with: what is stepped over again after a
      refusal is at worst that backslash. */
  lemma EscapeProgress(p: Ps)
    requires Peek(p) == '\\' as int
    ensures Escape(Next(p)).0.pos > p.pos
  {
    hide HexDigits, OctDigits, ControlEscape;
    var q := Next(p);
    if Peek(q) == EOF {
      assert Next(q).pos == q.pos;
    } else {
      assert Next(q).pos == q.pos + 1;
    }
  }

  /** After the opening quote. */
  function Double(p: Ps, buf: string): (r: (Ps, string))
    ensures r.0.pos >= p.pos && r.0.src == p.src && r.0.cut == p.cut && (Ok(p) ==> Ok(r.0))
    decreases |p.src| - p.pos
  {
    var r, p1 := Peek(p), Next(p);
    if r == EOF then (Complain(p1, StringUnterminated), buf)
    else if r == '\"' as int then (p1, buf)
    else if r == '\\' as int then
      EscapeProgress(p);
      var e := Escape(p1);
      Double(e.0, buf + e.1)
    else Double(p1, buf + [p.src[p.pos]])
  }

  // ----- barewords, primaries, compounds -----

  function BarewordEnd(isPrint: int -> bool, p: Ps, head: bool): (r: Ps)
    ensures r.pos >= p.pos && r.src == p.src && r.cut == p.cut && (Ok(p) ==> Ok(r))
    decreases |p.src| - p.pos
  {
    if AllowedInBareword(isPrint, Peek(p), head) && p.pos < |p.src| then BarewordEnd(isPrint, Next(p), head) else p
  }

  /** What parsing gave: the state after it and the result, or nothing if the text goes on with a
      construct that this model does not have. */
  datatype Outcome<+T> = Parsed(ps: Ps, value: T) | Outside

  function ParsePrimary(isPrint: int -> bool, p: Ps, head: bool): (o: Outcome<Primary>)
    ensures o.Parsed? ==> o.ps.src == p.src && o.ps.cut == p.cut && o.ps.pos >= p.pos && (Ok(p) ==> Ok(o.ps))
    ensures o.Parsed? && StartsPrimary(isPrint, Peek(p), head) && p.pos < |p.src| ==> o.ps.pos > p.pos
  {
    var r := Peek(p);
    if !StartsPrimary(isPrint, r, head) then Parsed(Complain(p, ShouldBePrimary), Primary(Bareword, ""))
    else if AllowedInBareword(isPrint, r, head) then
      var q := BarewordEnd(isPrint, p, head);
      if q.pos <= |p.src| then Parsed(q, Primary(Bareword, p.src[p.pos..q.pos])) else Outside
    else if r == '\'' as int then
      var s := Single(Next(p), "");
      Parsed(s.0, Primary(SingleQuoted, s.1))
    else if r == '\"' as int then
      var d := Double(Next(p), "");
      Parsed(d.0, Primary(DoubleQuoted, d.1))
    else Outside
  }

  /** A primary without indices. */
  function ParseIndexing(isPrint: int -> bool, p: Ps, head: bool): (o: Outcome<Primary>)
    ensures o.Parsed? ==> o.ps.src == p.src && o.ps.cut == p.cut && o.ps.pos >= p.pos && (Ok(p) ==> Ok(o.ps))
    ensures o.Parsed? && StartsPrimary(isPrint, Peek(p), head) && p.pos < |p.src| ==> o.ps.pos > p.pos
  {
    var o := ParsePrimary(isPrint, p, head);
    if o.Outside? || Peek(o.ps) == '[' as int then Outside else o
  }

  function ParseIndexings(isPrint: int -> bool, p: Ps, head: bool, acc: seq<Primary>): Outcome<seq<Primary>>
    decreases |p.src| - p.pos
  {
    if !StartsPrimary(isPrint, Peek(p), head) || p.pos >= |p.src| then Parsed(p, acc)
    else
      var o := ParseIndexing(isPrint, p, head);
      if o.Outside? then Outside else ParseIndexings(isPrint, o.ps, head, acc + [o.value])
  }

  /** A tilde in front, then primaries as long as one can start. */
  function ParseCompound(isPrint: int -> bool, p: Ps, head: bool): Outcome<seq<Primary>> {
    if Peek(p) == '~' as int then ParseIndexings(isPrint, Next(p), head, [Primary(Tilde, "~")])
    else ParseIndexings(isPrint, p, head, [])
  }

  // ----- the code -----

  class Parser {
    const src: string
    const isPrint: int -> bool
    var pos: nat
    var overEof: nat
    var cutsets: seq<map<int, int>>
    var errors: seq<ErrorAt>

    constructor (src: string, isPrint: int -> bool)
      ensures this.src == src && this.isPrint == isPrint && Ready()
      ensures State() == Ps(src, 0, 0, map[], [])
    {
      this.src, this.isPrint := src, isPrint;
      pos, overEof, cutsets, errors := 0, 0, [map[]], [];
    }

    ghost predicate Ready()
      reads this
    {
      cutsets != [] && pos <= |src|
    }

    function State(): Ps
      requires cutsets != []
      reads this
    {
      Ps(src, pos, overEof, cutsets[|cutsets| - 1], errors)
    }

    method PeekRune() returns (r: int)
      requires Ready()
      ensures r == Peek(State())
    {
      if pos == |src| {
        return EOF;
      }
      r := src[pos] as int;
      var cutset := cutsets[|cutsets| - 1];
      if r in cutset && cutset[r] > 0 {
        r := EOF;
      }
    }

    method NextRune() returns (r: int)
      requires Ready()
      modifies this`pos, this`overEof
      ensures Ready() && r == Peek(old(State())) && State() == Next(old(State()))
    {
      if pos == |src| {
        overEof := overEof + 1;
        return EOF;
      }
      r := src[pos] as int;
      var cutset := cutsets[|cutsets| - 1];
      if r in cutset && cutset[r] > 0 {
        return EOF;
      }
      pos := pos + 1;
    }

    method BackupRune()
      requires Ready()
      modifies this`pos, this`overEof
      ensures Ready() && State() == Backup(old(State()))
    {
      if overEof > 0 {
        overEof := overEof - 1;
      } else if pos > 0 {
        pos := pos - 1;
      }
    }

    method ErrorHere(e: ParseError)
      requires Ready()
      modifies this`errors
      ensures Ready() && State() == Complain(old(State()), e)
    {
      var end := pos;
      if end < |src| {
        end := end + 1;
      }
      errors := errors + [ErrorAt(pos, end, e)];
    }

    method SingleQuotedString() returns (value: string)
      requires Ready()
      modifies this`pos, this`overEof, this`errors
      ensures Ready() && (State(), value) == Single(Next(old(State())), "")
    {
      var _ := NextRune();
      value := "";
      ghost var result := Single(State(), "");
      while true
        invariant Ready() && Single(State(), value) == result
        decreases |src| - pos
      {
        var r := NextRune();
        if r == EOF {
          ErrorHere(StringUnterminated);
          return;
        } else if r == '\'' as int {
          var q := PeekRune();
          if q == '\'' as int {
            var _ := NextRune();
            value := value + "'";
          } else {
            return;
          }
        } else {
          value := value + [r as char];
        }
      }
    }

    method HexEscape(n: nat) returns (rr: nat)
      requires Ready()
      modifies this`pos, this`overEof, this`errors
      ensures Ready() && (State(), rr) == HexDigits(old(State()), n, 0)
    {
      rr := 0;
      for i := 0 to n
        invariant Ready() && HexDigits(State(), n - i, rr) == HexDigits(old(State()), n, 0)
      {
        var r := NextRune();
        var d := HexToDigit(r);
        if d.None? {
          BackupRune();
          ErrorHere(InvalidEscapeHex);
          break;
        }
        rr := rr * 16 + d.value;
      }
    }

    method OctEscape(first: nat) returns (rr: nat)
      requires Ready()
      modifies this`pos, this`overEof, this`errors
      ensures Ready() && (State(), rr) == OctDigits(old(State()), 2, first)
    {
      rr := first;
      for i := 0 to 2
        invariant Ready() && OctDigits(State(), 2 - i, rr) == OctDigits(old(State()), 2, first)
      {
        var r := NextRune();
        if r < '0' as int || r > '7' as int {
          BackupRune();
          ErrorHere(InvalidEscapeOct);
          break;
        }
        rr := rr * 8 + (r - '0' as int);
      }
    }

    method EscapeSequence() returns (text: string)
      requires Ready()
      modifies this`pos, this`overEof, this`errors
      ensures Ready() && (State(), text) == Escape(old(State()))
    {
      hide HexDigits, OctDigits;
      var r := NextRune();
      if r == 'c' as int || r == '^' as int {
        var r2 := NextRune();
        if r2 < 0x40 || r2 >= 0x60 {
          BackupRune();
          ErrorHere(InvalidEscapeControl);
          var _ := NextRune();
        }
        text := [ControlChar(r2)];
      } else if r == 'x' as int || r == 'u' as int || r == 'U' as int {
        var rr := HexEscape(HexWidth(r));
        text := [RuneToChar(rr)];
      } else if '0' as int <= r <= '7' as int {
        var rr := OctEscape(r - '0' as int);
        text := [RuneToChar(rr)];
      } else {
        var e := DoubleEscape(r);
        if e.Some? {
          text := [e.value];
        } else {
          BackupRune();
          ErrorHere(InvalidEscape);
          var _ := NextRune();
          text := "";
        }
      }
    }

    method DoubleQuotedString() returns (value: string)
      requires Ready()
      modifies this`pos, this`overEof, this`errors
      ensures Ready() && (State(), value) == Double(Next(old(State())), "")
    {
      hide Escape;
      var _ := NextRune();
      value := "";
      ghost var result := Double(State(), "");
      while true
        invariant Ready() && Double(State(), value) == result
        decreases |src| - pos
      {
        ghost var before := State();
        var r := NextRune();
        if r == EOF {
          ErrorHere(StringUnterminated);
          return;
        } else if r == '\"' as int {
          return;
        } else if r == '\\' as int {
          EscapeProgress(before);
          var text := EscapeSequence();
          value := value + text;
        } else {
          value := value + [r as char];
        }
      }
    }

    method BarewordString(head: bool) returns (value: string)
      requires Ready()
      modifies this`pos, this`overEof
      ensures Ready() && State() == BarewordEnd(isPrint, old(State()), head)
      ensures value == src[old(pos)..pos]
    {
      var begin := pos;
      while true
        invariant Ready() && begin <= pos
        invariant BarewordEnd(isPrint, State(), head) == BarewordEnd(isPrint, old(State()), head)
        decreases |src| - pos
      {
        var r := PeekRune();
        if !AllowedInBareword(isPrint, r, head) {
          break;
        }
        EofIsNoWord(isPrint, head);
        var _ := NextRune();
      }
      value := src[begin..pos];
    }

    /** Nothing if the text goes on with a construct outside this model. */
    method PrimaryNode(head: bool) returns (node: Option<Primary>)
      requires Ready()
      modifies this`pos, this`overEof, this`errors
      ensures Ready()
      ensures node == match ParsePrimary(isPrint, old(State()), head) case Parsed(_, v) => Some(v) case Outside => None
      ensures node.Some? ==> State() == ParsePrimary(isPrint, old(State()), head).ps
    {
      hide Single, Double;
      var r := PeekRune();
      var value;
      if !StartsPrimary(isPrint, r, head) {
        ErrorHere(ShouldBePrimary);
        node := Some(Primary(Bareword, ""));
      } else if AllowedInBareword(isPrint, r, head) {
        value := BarewordString(head);
        node := Some(Primary(Bareword, value));
      } else if r == '\'' as int {
        value := SingleQuotedString();
        node := Some(Primary(SingleQuoted, value));
      } else if r == '\"' as int {
        value := DoubleQuotedString();
        node := Some(Primary(DoubleQuoted, value));
      } else {
        node := None;
      }
    }

    method CompoundNode(head: bool) returns (nodes: Option<seq<Primary>>)
      requires Ready()
      modifies this`pos, this`overEof, this`errors
      ensures Ready()
      ensures nodes == match ParseCompound(isPrint, old(State()), head)
                       case Parsed(_, v) => Some(v) case Outside => None
      ensures nodes.Some? ==> State() == ParseCompound(isPrint, old(State()), head).ps
    {
      hide ParsePrimary;
      var parts := [];
      var r := PeekRune();
      if r == '~' as int {
        var _ := NextRune();
        parts := [Primary(Tilde, "~")];
      }
      ghost var result := ParseCompound(isPrint, old(State()), head);
      while true
        invariant Ready() && ParseIndexings(isPrint, State(), head, parts) == result
        decreases |src| - pos
      {
        r := PeekRune();
        if !StartsPrimary(isPrint, r, head) {
          break;
        }
        EofIsNoWord(isPrint, head);
        ghost var before := State();
        var node := PrimaryNode(head);
        if node.None? {
          return None;
        }
        r := PeekRune();
        if r == '[' as int {
          return None;
        }
        parts := parts + [node.value];
      }
      nodes := Some(parts);
    }
  }

  lemma EofIsNoWord(isPrint: int -> bool, head: bool)
    ensures !AllowedInBareword(isPrint, EOF, head) && !StartsPrimary(isPrint, EOF, head)
  {
  }
}
