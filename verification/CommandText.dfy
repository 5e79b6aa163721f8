/** The text form of commands: how they are printed for the log, and how text is read as a command. */
module CommandText {
  import opened Command

  const ULONG_MAX := 0xFFFF_FFFF_FFFF_FFFF

  predicate IsHex(c: char) {
    '0' <= c <= '9' || 'a' <= c <= 'f' || 'A' <= c <= 'F'
  }

  function HexValue(c: char): (v: nat)
    requires IsHex(c)
    ensures v < 16
  {
    if c <= '9' then c as int - '0' as int
    else if c <= 'F' then c as int - 'A' as int + 10
    else c as int - 'a' as int + 10
  }

  function HexDigit(v: nat): (c: char)
    requires v < 16
    ensures IsHex(c) && HexValue(c) == v
  {
    if v < 10 then '0' + v as char else 'a' + (v - 10) as char
  }

  function Hex2(b: Byte): string {
    [HexDigit(b / 16), HexDigit(b % 16)]
  }

  // ---------- strtoul with base 16 ----------

  predicate IsSpace(c: char) {
    c == ' ' || c == '\t' || c == '\n' || c == '\r' || c == '\U{000B}' || c == '\U{000C}'
  }

  /** The value of the leading digits, after acc. */
  function Digits(t: string, acc: nat): nat
    decreases |t|
  {
    if t != "" && IsHex(t[0]) then Digits(t[1..], acc * 16 + HexValue(t[0])) else acc
  }

  predicate HasHexPrefix(t: string) {
    |t| > 2 && t[0] == '0' && (t[1] == 'x' || t[1] == 'X') && IsHex(t[2])
  }

  /** The value of unsigned digits, negated modulo 2^64 if asked. Too large a value stays the largest. */
  function Signed(t: string, negative: bool): (v: nat)
    ensures v <= ULONG_MAX
  {
    var v := Digits(if HasHexPrefix(t) then t[2..] else t, 0);
    if v > ULONG_MAX then ULONG_MAX else if negative && v > 0 then ULONG_MAX + 1 - v else v
  }

  function Strtoul(t: string): nat {
    if t == "" then 0
    else if IsSpace(t[0]) then Strtoul(t[1..])
    else if t[0] == '+' || t[0] == '-' then Signed(t[1..], t[0] == '-')
    else Signed(t, false)
  }

  /** The digits in both cases. */
  lemma HexDigitValues(i: nat)
    requires i < 16
    ensures HexDigit(i) == "0123456789abcdef"[i]
    ensures HexValue("0123456789abcdef"[i]) == i && HexValue("0123456789ABCDEF"[i]) == i
  {
  }

  /** Each further digit counts sixteen times less. */
  lemma {:induction false} DigitsSnoc(t: string, c: char, acc: nat)
    requires IsHex(c) && forall i :: 0 <= i < |t| ==> IsHex(t[i])
    ensures Digits(t + [c], acc) == Digits(t, acc) * 16 + HexValue(c)
    decreases |t|
  {
    if t == "" {
      assert [c][1..] == "" && t + [c] == [c];
    } else {
      DigitsSnoc(t[1..], c, acc * 16 + HexValue(t[0]));
      assert (t + [c])[1..] == t[1..] + [c];
    }
  }

  lemma TwoDigits(high: char, low: char)
    requires IsHex(high) && IsHex(low)
    ensures Digits([high, low], 0) == 16 * HexValue(high) + HexValue(low)
  {
    assert [high, low][1..] == [low] && [low][1..] == "";
    assert Digits([low], HexValue(high)) == Digits("", 16 * HexValue(high) + HexValue(low));
  }

  /** Case, prefix, white space and a plus do not matter, nor what follows the digits. */
  lemma SameNumber()
    ensures Strtoul("1f") == 31 && Strtoul("1F") == 31 && Strtoul("0x1f") == 31 && Strtoul(" +1f") == 31
    ensures Strtoul("1fz") == 31
  {
    TwoDigits('1', 'f');
    TwoDigits('1', 'F');
    assert "0x1f"[2..] == "1f" && " +1f"[1..] == "+1f" && "+1f"[1..] == "1f";
    assert "1fz"[1..] == "fz" && "fz"[1..] == "z" && Digits("fz", 1) == Digits("z", 31);
  }

  /** Without digits the value is zero. */
  lemma NoDigits()
    ensures Strtoul("") == 0 && Strtoul("z1f") == 0 && Strtoul("0x") == 0 && Strtoul("-") == 0
  {
    assert "0x"[1..] == "x" && Digits("x", 0) == 0;
    assert "-"[1..] == "";
  }

  /** A minus wraps around at 64 bits. */
  lemma Negated()
    ensures Strtoul("-1") == 0xFFFF_FFFF_FFFF_FFFF && Strtoul("-0") == 0
  {
    assert "-1"[1..] == "1" && "1"[1..] == "" && Digits("", 1) == 1;
    assert "-0"[1..] == "0" && "0"[1..] == "" && Digits("", 0) == 0;
  }

  // ---------- tokens ----------

  /** What the colons of the text separate. */
  function Tokens(s: string): (r: seq<string>)
    ensures r != []
  {
    if s == "" then [""]
    else
      var rest := Tokens(s[1..]);
      if s[0] == ':' then [""] + rest else [[s[0]] + rest[0]] + rest[1..]
  }

  /** The index of the first colon from pos on, or the length. */
  function FindColon(s: string, pos: nat): (r: nat)
    requires pos <= |s|
    ensures pos <= r <= |s| && (r < |s| ==> s[r] == ':')
    ensures forall i :: pos <= i < r ==> s[i] != ':'
    decreases |s| - pos
  {
    if pos == |s| || s[pos] == ':' then pos else FindColon(s, pos + 1)
  }

  function Join(tokens: seq<string>): string
    requires tokens != []
  {
    if |tokens| == 1 then tokens[0] else tokens[0] + ":" + Join(tokens[1..])
  }

  /** Putting colons between the tokens gives the text again, and they contain none. */
  lemma {:induction false} TokensJoin(s: string)
    ensures Join(Tokens(s)) == s
    ensures forall i :: 0 <= i < |Tokens(s)| ==> ':' !in Tokens(s)[i]
  {
    if s != "" {
      var rest := Tokens(s[1..]);
      TokensJoin(s[1..]);
      if s[0] == ':' {
        assert ([""] + rest)[1..] == rest;
      } else {
        assert ([[s[0]] + rest[0]] + rest[1..])[1..] == rest[1..];
      }
    }
  }

  /** The tokens that are bytes, in order. Others are skipped. */
  function Values(tokens: seq<string>): seq<Byte> {
    if tokens == [] then []
    else (if Strtoul(tokens[0]) <= 0xFF then [Strtoul(tokens[0])] else []) + Values(tokens[1..])
  }

  function Parse(s: string): Cmd {
    if s == "" then CLEARED else PushAll(CLEARED, Values(Tokens(s)))
  }

  /** The tokens of the text from pos on; behind its end there are none. */
  function TokensFrom(s: string, pos: nat): seq<string> {
    if pos > |s| then [] else Tokens(s[pos..])
  }

  lemma TokenGrows(s: string, first: char, head: string, rest: seq<string>)
    requires first != ':' && Tokens(s) == [head] + rest
    ensures Tokens([first] + s) == [[first] + head] + rest
  {
    assert ([first] + s)[1..] == s;
    assert ([head] + rest)[1..] == rest;
  }

  lemma {:induction false} FirstToken(token: string, tail: string)
    requires ':' !in token && (tail == "" || tail[0] == ':')
    ensures Tokens(token + tail) == [token] + if tail == "" then [] else Tokens(tail[1..])
  {
    if token == "" {
      assert token + tail == tail;
    } else {
      var first, head, text := token[0], token[1..], token[1..] + tail;
      assert token == [first] + head && token + tail == [first] + text;
      FirstToken(head, tail);
      TokenGrows(text, first, head, if tail == "" then [] else Tokens(tail[1..]));
    }
  }

  lemma CutToken(t: string, n: nat)
    requires n <= |t| && ':' !in t[..n] && (n == |t| || t[n] == ':')
    ensures Tokens(t) == [t[..n]] + if n == |t| then [] else Tokens(t[n + 1..])
  {
    var token, tail := t[..n], t[n..];
    assert token + tail == t;
    if n == |t| {
      FirstToken(token, "");
      assert token + "" == t;
    } else {
      assert tail[0] == ':' && tail[1..] == t[n + 1..];
      FirstToken(token, tail);
    }
  }

  lemma CutAt(s: string, pos: nat, next: nat)
    requires pos <= next <= |s| && (forall i :: pos <= i < next ==> s[i] != ':') && (next == |s| || s[next] == ':')
    ensures TokensFrom(s, pos) == [s[pos..next]] + TokensFrom(s, next + 1)
  {
    var t, n := s[pos..], next - pos;
    assert t[..n] == s[pos..next];
    if next < |s| {
      assert t[n + 1..] == s[next + 1..];
    }
    CutToken(t, n);
  }

  /** One round of the loop of CommandFromString cuts off the first token. */
  lemma NextToken(s: string, pos: nat)
    requires pos <= |s|
    ensures TokensFrom(s, pos) == [s[pos..FindColon(s, pos)]] + TokensFrom(s, FindColon(s, pos) + 1)
  {
    CutAt(s, pos, FindColon(s, pos));
  }

  lemma {:induction false} PushCons(c: Cmd, b: Byte, bytes: seq<Byte>)
    ensures PushAll(c, [b] + bytes) == PushAll(Push(c, b), bytes)
  {
    if bytes == [] {
      assert [b] + bytes == [b] && [b][..0] == [];
    } else {
      var n := |bytes| - 1;
      PushCons(c, b, bytes[..n]);
      assert ([b] + bytes)[..n + 1] == [b] + bytes[..n];
    }
  }

  /** What a token of this value does to a command. */
  function PushByte(c: Cmd, value: nat): Cmd {
    if value <= 0xFF then Push(c, value) else c
  }

  lemma PushStep(c: Cmd, token: string, rest: seq<string>)
    ensures PushAll(c, Values([token] + rest)) == PushAll(PushByte(c, Strtoul(token)), Values(rest))
  {
    assert ([token] + rest)[1..] == rest;
    if Strtoul(token) <= 0xFF {
      PushCons(c, Strtoul(token), Values(rest));
    } else {
      assert [] + Values(rest) == Values(rest);
    }
  }

  method PushValue(c: CecCommand, value: nat)
    requires c.Valid()
    modifies c, c.parameters, c.parameters.data
    ensures c.Valid() && c.Value() == PushByte(old(c.Value()), value)
  {
    if value <= 0xFF {
      c.PushBack(value);
    }
  }

  /** The tokens read from the front. */
  function ReadTokens(c: Cmd, tokens: seq<string>): Cmd
    decreases |tokens|
  {
    if tokens == [] then c else ReadTokens(PushByte(c, Strtoul(tokens[0])), tokens[1..])
  }

  /** That is the left fold over those that are bytes. */
  lemma {:induction false} ReadIsFold(c: Cmd, tokens: seq<string>)
    ensures ReadTokens(c, tokens) == PushAll(c, Values(tokens))
    decreases |tokens|
  {
    if tokens != [] {
      assert tokens == [tokens[0]] + tokens[1..];
      PushStep(c, tokens[0], tokens[1..]);
      ReadIsFold(PushByte(c, Strtoul(tokens[0])), tokens[1..]);
    }
  }

  /** What the loop of CommandFromString cuts from pos on. */
  function Cuts(s: string, pos: nat): seq<string>
    decreases |s| + 1 - pos
  {
    if pos > |s| then [] else [s[pos..FindColon(s, pos)]] + Cuts(s, FindColon(s, pos) + 1)
  }

  lemma {:induction false} CutsAreTokens(s: string, pos: nat)
    ensures Cuts(s, pos) == TokensFrom(s, pos)
    decreases |s| + 1 - pos
  {
    if pos <= |s| {
      NextToken(s, pos);
      CutsAreTokens(s, FindColon(s, pos) + 1);
    }
  }

  lemma ReadCut(c: Cmd, s: string, pos: nat)
    requires pos <= |s|
    ensures ReadTokens(c, Cuts(s, pos)) ==
            ReadTokens(PushByte(c, Strtoul(s[pos..FindColon(s, pos)])), Cuts(s, FindColon(s, pos) + 1))
  {
    assert Cuts(s, pos)[1..] == Cuts(s, FindColon(s, pos) + 1);
  }

  method PushTokens(c: CecCommand, s: string)
    requires c.Valid()
    modifies c, c.parameters, c.parameters.data
    ensures c.Valid() && c.Value() == ReadTokens(old(c.Value()), Cuts(s, 0))
  {
    ghost var whole := ReadTokens(c.Value(), Cuts(s, 0));
    var pos := 0;
    while pos <= |s|
      invariant c.Valid() && ReadTokens(c.Value(), Cuts(s, pos)) == whole
      decreases |s| + 1 - pos
    {
      var next := FindColon(s, pos);
      ReadCut(c.Value(), s, pos);
      PushValue(c, Strtoul(s[pos..next]));
      pos := next + 1;
    }
  }

  /** CommandFromString. */
  method CommandFromString(s: string) returns (c: CecCommand)
    ensures fresh(c) && c.Valid() && c.Value() == Parse(s)
  {
    c := new CecCommand();
    if s != "" {
      assert s[0..] == s;
      CutsAreTokens(s, 0);
      ReadIsFold(CLEARED, Tokens(s));
      PushTokens(c, s);
    }
  }

  // ---------- printing ----------

  function PrintedParameters(bytes: seq<Byte>): string {
    if bytes == [] then "" else ":" + Hex2(bytes[0]) + PrintedParameters(bytes[1..])
  }

  const PREFIX := ">> "

  /** What ToString puts behind the prefix, on addresses of one digit. */
  function PrintedCommand(c: Cmd): string
    requires 0 <= c.initiator < 16 && 0 <= c.destination < 16
  {
    [HexDigit(c.initiator), HexDigit(c.destination)]
    + PrintedParameters((if c.opcodeSet then [c.opcode] else []) + c.parameters)
  }

  method AppendByte(text: string, bytes: seq<Byte>, i: nat) returns (r: string)
    requires i < |bytes|
    ensures r + PrintedParameters(bytes[i + 1..]) == text + PrintedParameters(bytes[i..])
  {
    var piece := ":" + Hex2(bytes[i]);
    assert bytes[i..][1..] == bytes[i + 1..];
    assert text + (piece + PrintedParameters(bytes[i + 1..])) == (text + piece) + PrintedParameters(bytes[i + 1..]);
    r := text + piece;
  }

  /** ToString. */
  method ToString(c: Cmd) returns (r: string)
    requires 0 <= c.initiator < 16 && 0 <= c.destination < 16
    ensures r == ">> " + PrintedCommand(c)
  {
    var start := PREFIX + [HexDigit(c.initiator), HexDigit(c.destination)];
    var bytes := (if c.opcodeSet then [c.opcode] else []) + c.parameters;
    var tail := "";
    for i := 0 to |bytes|
      invariant tail + PrintedParameters(bytes[i..]) == PrintedParameters(bytes)
    {
      tail := AppendByte(tail, bytes, i);
    }
    r := start + tail;
  }

  lemma HexTokenValue(b: Byte)
    ensures Strtoul(Hex2(b)) == b && ':' !in Hex2(b)
  {
    var t := Hex2(b);
    assert t[1..][1..] == [] && Digits([], b) == b;
    assert Digits(t[1..], b / 16) == b;
  }

  function HexTokens(bytes: seq<Byte>): seq<string> {
    if bytes == [] then [] else [Hex2(bytes[0])] + HexTokens(bytes[1..])
  }

  /** Printed parameters are read back, whatever token comes before them. */
  lemma {:induction false} PrintedTokens(token: string, bytes: seq<Byte>)
    requires ':' !in token
    ensures Tokens(token + PrintedParameters(bytes)) == [token] + HexTokens(bytes)
    decreases |bytes|
  {
    FirstToken(token, PrintedParameters(bytes));
    if bytes != [] {
      HexTokenValue(bytes[0]);
      PrintedTokens(Hex2(bytes[0]), bytes[1..]);
      assert PrintedParameters(bytes)[1..] == Hex2(bytes[0]) + PrintedParameters(bytes[1..]);
    }
  }

  lemma {:induction false} HexTokensValues(bytes: seq<Byte>)
    ensures Values(HexTokens(bytes)) == bytes
  {
    if bytes != [] {
      HexTokenValue(bytes[0]);
      HexTokensValues(bytes[1..]);
      assert HexTokens(bytes)[1..] == HexTokens(bytes[1..]);
    }
  }

  lemma ParsePrinted(token: string, value: Byte, bytes: seq<Byte>)
    requires token != "" && ':' !in token && Strtoul(token) == value
    ensures Parse(token + PrintedParameters(bytes)) == PushAll(CLEARED, [value] + bytes)
  {
    PrintedTokens(token, bytes);
    HexTokensValues(bytes);
    assert ([token] + HexTokens(bytes))[1..] == HexTokens(bytes);
  }

  lemma PrintIs(c: Cmd)
    requires c.WellFormed()
    ensures PrintedCommand(c) == Hex2(c.Header()) + PrintedParameters(c.Body())
  {
    assert (if c.opcodeSet then [c.opcode] else []) + c.parameters == c.Body();
  }

  /** The printed form of a command, without its prefix, reads back as that command. */
  lemma TextRoundTrip(c: Cmd)
    requires c.WellFormed()
    ensures Parse(PrintedCommand(c)) == c
  {
    PrintIs(c);
    HexTokenValue(c.Header());
    ParsePrinted(Hex2(c.Header()), c.Header(), c.Body());
    CommandRoundTrip(c);
  }

  /** A command with a parameter, printed and read. */
  lemma PrintedExample()
    ensures PrintedCommand(Cmd(4, 15, true, 0x36, [0xAB])) == "4f:36:ab"
    ensures Parse("4f:36:ab") == Cmd(4, 15, true, 0x36, [0xAB])
  {
    TextRoundTrip(Cmd(4, 15, true, 0x36, [0xAB]));
    assert [0x36] + [0xAB] == [0x36, 0xAB] && [0x36, 0xAB][1..] == [0xAB] && [0xAB][1..] == [];
    assert PrintedParameters([0xAB]) == ":ab";
    assert PrintedParameters([0x36, 0xAB]) == ":36:ab";
  }

  /** A token above FF is no byte, and is skipped. */
  lemma TokensSkipped(token: string, rest: seq<string>)
    ensures Values([token] + rest) == if Strtoul(token) < 256 then [Strtoul(token)] + Values(rest) else Values(rest)
  {
    assert ([token] + rest)[1..] == rest;
  }

  lemma NoNumber(token: string)
    requires token != "" && token[0] == '>'
    ensures Strtoul(token) == 0
  {
  }

  lemma ParseUnaddressed(token: string, c: Cmd)
    requires c.WellFormed() && c.initiator == 0 && c.destination == 0
    requires token != "" && ':' !in token && Strtoul(token) == 0
    ensures Parse(token + PrintedParameters(c.Body())) == c
  {
    ParsePrinted(token, 0, c.Body());
    CommandRoundTrip(c);
  }

  /** With its prefix, the first token is no number, and the addresses are read as zero. */
  lemma TextWithPrefix(c: Cmd)
    requires c.WellFormed()
    ensures Parse(PREFIX + PrintedCommand(c)) == c.(initiator := 0, destination := 0)
  {
    var token := PREFIX + Hex2(c.Header());
    HexTokenValue(c.Header());
    NoNumber(token);
    ParseUnaddressed(token, c.(initiator := 0, destination := 0));
    PrintIs(c);
    assert PREFIX + PrintedCommand(c) == token + PrintedParameters(c.Body());
  }

  /** So the log's own form reads back right for commands from address 0 to itself only. */
  lemma LoggedFormReadsBack(c: Cmd)
    requires c.WellFormed()
    ensures Parse(PREFIX + PrintedCommand(c)) == c <==> c.initiator == 0 && c.destination == 0
  {
    TextWithPrefix(c);
  }

  /** An image view on from address 4 to the TV reads back as one from the TV to itself. */
  lemma LoggedFormGoesWrong()
    ensures var c := Cmd(4, 0, true, 0x04, []);
            Parse(PREFIX + PrintedCommand(c)) == Cmd(0, 0, true, 0x04, [])
  {
    TextWithPrefix(Cmd(4, 0, true, 0x04, []));
  }
}
