/** Shares as text: what the split command prints and how the combine command reads it back
    (core/cmd/vaultctl/main.go). Text is valid Unicode; hex is section 8 of RFC 4648. */
module ShareText {
  import opened Wrappers
  import opened Collections
  import opened GF256
  import opened GFTables
  import opened Shamir
  import opened ShamirTheorems

  // ---- hex ---------------------------------------------------------------------------------

  const HEX_TABLE := "0123456789abcdef"

  function HexDigit(n: Byte): char
    requires n < 16
  {
    HEX_TABLE[n as int]
  }

  function FromHexDigit(c: char): Option<Byte> {
    if '0' <= c <= '9' then Some((c as int - '0' as int) as Byte)
    else if 'a' <= c <= 'f' then Some((c as int - 'a' as int + 10) as Byte)
    else if 'A' <= c <= 'F' then Some((c as int - 'A' as int + 10) as Byte)
    else None
  }

  function High(b: Byte): (n: Byte)
    ensures n < 16
  {
    b >> 4
  }

  function Low(b: Byte): (n: Byte)
    ensures n < 16
  {
    b & 0x0f
  }

  function Glue(hi: Byte, lo: Byte): Byte { (hi << 4) | lo }

  function EncodeHex(bytes: seq<Byte>): string {
    if bytes == [] then ""
    else [HexDigit(High(bytes[0])), HexDigit(Low(bytes[0]))] + EncodeHex(bytes[1..])
  }

  /** None stands for either decoding error: a bad character or an odd length. */
  function DecodeHex(s: string): Option<seq<Byte>> {
    if s == "" then Some([])
    else if |s| == 1 then None
    else
      var hi, lo, rest := FromHexDigit(s[0]), FromHexDigit(s[1]), DecodeHex(s[2..]);
      if hi.None? || lo.None? || rest.None? then None
      else Some([Glue(hi.value, lo.value)] + rest.value)
  }

  lemma DigitRoundTrip(n: Byte)
    requires n < 16
    ensures FromHexDigit(HexDigit(n)) == Some(n)
    ensures HexDigit(n) in HEX_TABLE
  {
    var k := n as int;
    assert k as Byte == n;
    assert k == 0 || k == 1 || k == 2 || k == 3 || k == 4 || k == 5 || k == 6 || k == 7 || k == 8 || k == 9
           || k == 10 || k == 11 || k == 12 || k == 13 || k == 14 || k == 15;
  }

  lemma NibbleRoundTrip(b: Byte)
    ensures Glue(High(b), Low(b)) == b
  {}

  lemma {:induction false} HexRoundTrip(bytes: seq<Byte>)
    ensures DecodeHex(EncodeHex(bytes)) == Some(bytes)
    ensures |EncodeHex(bytes)| == 2 * |bytes|
    ensures forall i :: 0 <= i < |EncodeHex(bytes)| ==> EncodeHex(bytes)[i] in HEX_TABLE
  {
    if bytes != [] {
      var b, rest := bytes[0], bytes[1..];
      HexRoundTrip(rest);
      hide HexDigit, FromHexDigit, Glue, High, Low;
      NibbleRoundTrip(b);
      DigitRoundTrip(High(b));
      DigitRoundTrip(Low(b));
      var s := EncodeHex(bytes);
      assert s[2..] == EncodeHex(rest);
      assert bytes == [b] + rest;
    }
  }

  /** A digit's character code, and exactly which characters are digits, in either case. */
  lemma DigitAnswers(n: Byte, c: char)
    ensures n < 16 ==> HexDigit(n) as int == if Index(n) < 10 then '0' as int + Index(n) else 'a' as int - 10 + Index(n)
    ensures FromHexDigit(c).Some? <==> '0' <= c <= '9' || 'a' <= c <= 'f' || 'A' <= c <= 'F'
    ensures FromHexDigit(c).Some? ==> FromHexDigit(c).value < 16 && HexDigit(FromHexDigit(c).value) == LowerCase(c)
  {
    if n < 16 {
      DigitCode(n);
    }
    if FromHexDigit(c).Some? {
      var k := DigitIndex(c);
      IndexOfByte(k);
      hide FromHexDigit;
      assert Index(FromHexDigit(c).value) == k by { DigitByIndex(c); }
      DigitCode(FromHexDigit(c).value);
    }
  }

  /** The value of a digit as a number. */
  function DigitIndex(c: char): nat
    requires '0' <= c <= '9' || 'a' <= c <= 'f' || 'A' <= c <= 'F'
  {
    if c <= '9' then c as int - '0' as int else if 'a' <= c then c as int - 'a' as int + 10
      else c as int - 'A' as int + 10
  }

  lemma DigitByIndex(c: char)
    requires '0' <= c <= '9' || 'a' <= c <= 'f' || 'A' <= c <= 'F'
    ensures DigitIndex(c) < 16 && FromHexDigit(c).Some? && Index(FromHexDigit(c).value) == DigitIndex(c)
  {
    IndexOfByte(DigitIndex(c));
    hide Index;
  }

  lemma DigitCode(n: Byte)
    requires n < 16
    ensures Index(n) < 16
    ensures HexDigit(n) as int == if Index(n) < 10 then '0' as int + Index(n) else 'a' as int - 10 + Index(n)
  {
    var k := n as int;
    assert k == 0 || k == 1 || k == 2 || k == 3 || k == 4 || k == 5 || k == 6 || k == 7 || k == 8 || k == 9
           || k == 10 || k == 11 || k == 12 || k == 13 || k == 14 || k == 15;
  }

  function LowerCase(c: char): char {
    if 'A' <= c <= 'Z' then (c as int + 32) as char else c
  }

  function LowerText(s: string): (t: string)
    ensures |t| == |s|
  {
    seq(|s|, i requires 0 <= i < |s| => LowerCase(s[i]))
  }

  /** A text decodes to exactly the bytes whose coding it is, in either case of its letters; any other
      text decodes to nothing. */
  lemma {:induction false} DecodesIff(s: string, bytes: seq<Byte>)
    ensures DecodeHex(s) == Some(bytes) <==> LowerText(s) == EncodeHex(bytes)
    decreases |s|
  {
    hide HexDigit, FromHexDigit, LowerCase, Glue, High, Low;
    HexRoundTrip(bytes);
    if |s| >= 2 {
      var rest := s[2..];
      assert LowerText(s) == [LowerCase(s[0]), LowerCase(s[1])] + LowerText(rest);
      if bytes != [] {
        var b := bytes[0];
        DecodesIff(rest, bytes[1..]);
        LowerDigit(s[0], High(b));
        LowerDigit(s[1], Low(b));
        DigitAnswers(0, s[0]);
        DigitAnswers(0, s[1]);
        if FromHexDigit(s[0]).Some? && FromHexDigit(s[1]).Some? {
          GlueSplits(FromHexDigit(s[0]).value, FromHexDigit(s[1]).value, b);
        }
        FirstByte(s, bytes);
      }
    }
  }

  lemma GlueSplits(hi: Byte, lo: Byte, b: Byte)
    requires hi < 16 && lo < 16
    ensures Glue(hi, lo) == b <==> hi == High(b) && lo == Low(b)
  {}

  /** Both sides, one byte at a time. */
  lemma FirstByte(s: string, bytes: seq<Byte>)
    requires |s| >= 2 && bytes != []
    ensures LowerText(s) == EncodeHex(bytes) <==>
              && LowerCase(s[0]) == HexDigit(High(bytes[0])) && LowerCase(s[1]) == HexDigit(Low(bytes[0]))
              && LowerText(s[2..]) == EncodeHex(bytes[1..])
    ensures DecodeHex(s) == Some(bytes) <==>
              && FromHexDigit(s[0]).Some? && FromHexDigit(s[1]).Some? && DecodeHex(s[2..]) == Some(bytes[1..])
              && Glue(FromHexDigit(s[0]).value, FromHexDigit(s[1]).value) == bytes[0]
  {
    hide HexDigit, FromHexDigit, LowerCase, Glue, High, Low;
    var t, rest := LowerText(s), LowerText(s[2..]);
    assert t == [LowerCase(s[0]), LowerCase(s[1])] + rest;
    var e := EncodeHex(bytes);
    assert e == [HexDigit(High(bytes[0])), HexDigit(Low(bytes[0]))] + EncodeHex(bytes[1..]);
    assert e[0] == HexDigit(High(bytes[0])) && e[1] == HexDigit(Low(bytes[0])) && e[2..] == EncodeHex(bytes[1..]);
    assert t[0] == LowerCase(s[0]) && t[1] == LowerCase(s[1]) && t[2..] == rest;
    if DecodeHex(s).Some? {
      var d := DecodeHex(s).value;
      assert d[1..] == DecodeHex(s[2..]).value;
      assert d == [d[0]] + d[1..];
    }
    assert bytes == [bytes[0]] + bytes[1..];
  }

  /** A character stands for the digit whose character it is in lower case. */
  lemma LowerDigit(c: char, n: Byte)
    requires n < 16
    ensures FromHexDigit(c) == Some(n) <==> LowerCase(c) == HexDigit(n)
  {
    DigitAnswers(n, c);
    DigitRoundTrip(n);
    hide HexDigit, FromHexDigit;
    if FromHexDigit(c).Some? {
      DigitRoundTrip(FromHexDigit(c).value);
    }
    IndexBelow(n);
  }

  lemma IndexBelow(n: Byte)
    requires n < 16
    ensures Index(n) < 16
  {}

  // ---- share lines -------------------------------------------------------------------------

  datatype CliError = BadShare | BadX | BadY | Rejected(why: CombineError)

  function IndexOf(s: string, c: char): Option<nat> {
    if s == "" then None
    else if s[0] == c then Some(0)
    else match IndexOf(s[1..], c)
         case Some(i) => Some(i + 1)
         case None => None
  }

  /** One printed share: two hex digits of X, a colon, the hex of Y. */
  function ShareLine(s: Share): string {
    EncodeHex([s.X]) + ":" + EncodeHex(s.Y)
  }

  function ParseShare(line: string): Result<Share, CliError> {
    match IndexOf(line, ':')
    case None => Err(BadShare)
    case Some(i) =>
      IndexOfBound(line, ':');
      var xb := DecodeHex(line[..i]);
      if xb.None? || |xb.value| != 1 then Err(BadX)
      else
        var y := DecodeHex(line[i + 1..]);
        if y.None? then Err(BadY) else Ok(Share(xb.value[0], y.value))
  }

  lemma {:induction false} IndexOfBound(s: string, c: char)
    ensures IndexOf(s, c).Some? <==> c in s
    ensures IndexOf(s, c).Some? ==> IndexOf(s, c).value < |s| && c !in s[..IndexOf(s, c).value]
    ensures IndexOf(s, c).Some? ==> s[IndexOf(s, c).value] == c
  {
    if s != "" && s[0] != c {
      IndexOfBound(s[1..], c);
      assert s == [s[0]] + s[1..];
      if IndexOf(s, c).Some? {
        var i := IndexOf(s[1..], c).value;
        assert s[..i + 1] == [s[0]] + s[1..][..i];
      }
    }
  }

  lemma {:induction false} FirstIndexOf(a: string, c: char, b: string)
    requires c !in a
    ensures IndexOf(a + [c] + b, c) == Some(|a|)
  {
    if a != "" {
      assert a == [a[0]] + a[1..];
      FirstIndexOf(a[1..], c, b);
      assert (a + [c] + b)[1..] == a[1..] + [c] + b;
    }
  }

  lemma ShareLineShape(s: Share)
    ensures |ShareLine(s)| == 2 * |s.Y| + 3
    ensures forall i :: 0 <= i < |ShareLine(s)| ==> ShareLine(s)[i] in HEX_TABLE || ShareLine(s)[i] == ':'
    ensures ShareLine(s)[0] in HEX_TABLE
  {
    HexRoundTrip([s.X]);
    HexRoundTrip(s.Y);
  }

  lemma ParseShareLine(s: Share)
    ensures ParseShare(ShareLine(s)) == Ok(s)
  {
    var x, y := EncodeHex([s.X]), EncodeHex(s.Y);
    HexRoundTrip([s.X]);
    HexRoundTrip(s.Y);
    assert ':' !in HEX_TABLE;
    FirstIndexOf(x, ':', y);
    assert ShareLine(s)[..|x|] == x && ShareLine(s)[|x| + 1..] == y;
  }

  predicate CodesByte(x: string, b: Byte) {
    LowerText(x) == EncodeHex([b])
  }

  /** The parts before and after the first colon answer for the line. */
  ghost predicate PartsAnswer(r: Result<Share, CliError>, x: string, y: string) {
    && (r == Err(BadX) <==> forall b: Byte :: !CodesByte(x, b))
    && (r == Err(BadY) <==> (exists b: Byte :: CodesByte(x, b)) && forall d :: LowerText(y) != EncodeHex(d))
    && (r.Ok? ==> CodesByte(x, r.value.X) && LowerText(y) == EncodeHex(r.value.Y))
    && (r.Err? ==> r.error == BadX || r.error == BadY)
  }

  /** A line is a share exactly when what precedes its first colon codes one byte and what follows it
      codes any; otherwise the error says which part is wrong. */
  lemma ParseShareAnswers(line: string, x: string, y: string)
    ensures ParseShare(line) == Err(BadShare) <==> ':' !in line
    ensures line == x + ":" + y && ':' !in x ==> PartsAnswer(ParseShare(line), x, y)
  {
    hide ParseShare, PartsAnswer, DecodeHex;
    NoColon(line);
    if line == x + ":" + y && ':' !in x {
      SplitAtColon(line, x, y);
      PartsDecoded(ParseShare(line), x, y);
    }
  }

  lemma NoColon(line: string)
    ensures ParseShare(line) == Err(BadShare) <==> ':' !in line
  {
    IndexOfBound(line, ':');
    hide DecodeHex;
  }

  predicate OneByte(d: Option<seq<Byte>>) {
    d.Some? && |d.value| == 1
  }

  /** What the code makes of the two parts. */
  predicate PartsParse(r: Result<Share, CliError>, xb: Option<seq<Byte>>, yb: Option<seq<Byte>>) {
    r == if !OneByte(xb) then Err(BadX) else if yb.None? then Err(BadY) else Ok(Share(xb.value[0], yb.value))
  }

  lemma SplitAtColon(line: string, x: string, y: string)
    requires line == x + ":" + y && ':' !in x
    ensures PartsParse(ParseShare(line), DecodeHex(x), DecodeHex(y))
  {
    FirstIndexOf(x, ':', y);
    assert line[..|x|] == x && line[|x| + 1..] == y;
    hide DecodeHex;
  }

  lemma PartsDecoded(r: Result<Share, CliError>, x: string, y: string)
    requires PartsParse(r, DecodeHex(x), DecodeHex(y))
    ensures PartsAnswer(r, x, y)
  {
    hide DecodeHex, EncodeHex, LowerText;
    forall b: Byte ensures DecodeHex(x) == Some([b]) <==> CodesByte(x, b) {
      DecodesIff(x, [b]);
    }
    forall d ensures DecodeHex(y) == Some(d) <==> LowerText(y) == EncodeHex(d) {
      DecodesIff(y, d);
    }
    hide CodesByte;
    if OneByte(DecodeHex(x)) {
      assert DecodeHex(x).value == [DecodeHex(x).value[0]];
    }
  }

  // ---- reading lines -----------------------------------------------------------------------

  /** The scanner's buffer: a line and its newline must fit, or scanning stops silently. */
  const MAX_TOKEN := 0x10_0000

  /** The bytes a text takes in UTF-8. */
  function ByteSize(text: string): nat {
    if text == "" then 0
    else
      var c := text[0];
      (if c < '\U{80}' then 1 else if c < '\U{800}' then 2 else if c < '\U{10000}' then 3 else 4) + ByteSize(text[1..])
  }

  predicate IsAscii(s: string) {
    forall i :: 0 <= i < |s| ==> s[i] < '\U{80}'
  }

  lemma {:induction false} AsciiSize(s: string)
    ensures |s| <= ByteSize(s)
    ensures IsAscii(s) ==> ByteSize(s) == |s|
  {
    if s != "" {
      AsciiSize(s[1..]);
    }
  }

  /** White space in the sense of Unicode. */
  predicate IsSpace(c: char) {
    || '\t' <= c <= '\r' || c == ' ' || c == '\U{85}' || c == '\U{A0}' || c == '\U{1680}'
    || '\U{2000}' <= c <= '\U{200A}' || c == '\U{2028}' || c == '\U{2029}' || c == '\U{202F}'
    || c == '\U{205F}' || c == '\U{3000}'
  }

  /** The 25 characters that count as white space. */
  const SPACES := [0x9, 0xa, 0xb, 0xc, 0xd, 0x20, 0x85, 0xa0, 0x1680, 0x2000, 0x2001, 0x2002, 0x2003, 0x2004, 0x2005,
                   0x2006, 0x2007, 0x2008, 0x2009, 0x200a, 0x2028, 0x2029, 0x202f, 0x205f, 0x3000]

  lemma SpaceAnswers(c: char)
    ensures IsSpace(c) <==> c as int in SPACES
  {}

  function DropCR(line: string): string {
    if line != "" && line[|line| - 1] == '\r' then line[..|line| - 1] else line
  }

  /** The lines the scanner delivers. */
  function Lines(text: string): seq<string>
    decreases |text|
  {
    if text == "" then []
    else match IndexOf(text, '\n')
         case None => if ByteSize(text) >= MAX_TOKEN then [] else [DropCR(text)]
         case Some(i) =>
           IndexOfBound(text, '\n');
           if ByteSize(text[..i]) + 1 > MAX_TOKEN then [] else [DropCR(text[..i])] + Lines(text[i + 1..])
  }

  function TrimLeft(s: string): string {
    if s != "" && IsSpace(s[0]) then TrimLeft(s[1..]) else s
  }

  function TrimRight(s: string): string {
    if s != "" && IsSpace(s[|s| - 1]) then TrimRight(s[..|s| - 1]) else s
  }

  function Trim(s: string): string { TrimRight(TrimLeft(s)) }

  /** Blank lines and comments are skipped. */
  predicate Skipped(line: string) {
    Trim(line) == "" || Trim(line)[0] == '#'
  }

  /** The trimmed lines that reach ParseShare. */
  function Payload(lines: seq<string>): seq<string> {
    if lines == [] then []
    else if Skipped(lines[0]) then Payload(lines[1..])
    else [Trim(lines[0])] + Payload(lines[1..])
  }

  /** Parses every line, stopping at the first bad one. */
  function ParseAll(lines: seq<string>): Result<seq<Share>, CliError> {
    if lines == [] then Ok([])
    else match ParseShare(lines[0])
         case Err(e) => Err(e)
         case Ok(s) =>
           match ParseAll(lines[1..])
           case Err(e) => Err(e)
           case Ok(rest) => Ok([s] + rest)
  }

  ghost function CombineText(input: string): Result<string, CliError> {
    match ParseAll(Payload(Lines(input)))
    case Err(e) => Err(e)
    case Ok(shares) =>
      match CombineResult(shares)
      case Err(e) => Err(Rejected(e))
      case Ok(master) => Ok("master-key: " + EncodeHex(master) + "\n")
  }

  lemma {:induction false} PayloadSnoc(lines: seq<string>, line: string)
    ensures Payload(lines + [line]) == if Skipped(line) then Payload(lines) else Payload(lines) + [Trim(line)]
  {
    hide Skipped, Trim;
    if lines == [] {
      assert [line][1..] == [];
    } else {
      PayloadSnoc(lines[1..], line);
      assert (lines + [line])[1..] == lines[1..] + [line];
    }
  }

  lemma {:induction false} ParseAllAppend(a: seq<string>, b: seq<string>)
    ensures ParseAll(a).Err? ==> ParseAll(a + b) == ParseAll(a)
    ensures ParseAll(a).Ok? && ParseAll(b).Ok? ==> ParseAll(a + b) == Ok(ParseAll(a).value + ParseAll(b).value)
    ensures ParseAll(a).Ok? && ParseAll(b).Err? ==> ParseAll(a + b) == ParseAll(b)
  {
    hide *;
    if a == [] {
      assert a + b == b;
      ParseNone();
      if ParseAll(b).Ok? {
        assert [] + ParseAll(b).value == ParseAll(b).value;
      }
    } else {
      assert (a + b)[1..] == a[1..] + b;
      ParseAllAppend(a[1..], b);
      ParseFirst(a);
      ParseFirst(a + b);
      if ParseAll(a).Ok? && ParseAll(b).Ok? {
        var s, rest := ParseShare(a[0]).value, ParseAll(a[1..]).value;
        assert [s] + (rest + ParseAll(b).value) == ([s] + rest) + ParseAll(b).value;
      }
    }
  }

  lemma PayloadNone()
    ensures Payload([]) == []
  {}

  lemma ParseNone()
    ensures ParseAll([]) == Ok([])
  {}

  lemma ParseFirst(lines: seq<string>)
    requires lines != []
    ensures ParseAll(lines) == if ParseShare(lines[0]).Err? then Err(ParseShare(lines[0]).error)
                               else if ParseAll(lines[1..]).Err? then Err(ParseAll(lines[1..]).error)
                               else Ok([ParseShare(lines[0]).value] + ParseAll(lines[1..]).value)
  {
    hide ParseShare;
  }

  lemma {:induction false} PayloadAppend(a: seq<string>, b: seq<string>)
    ensures Payload(a + b) == Payload(a) + Payload(b)
  {
    hide *;
    if a == [] {
      assert a + b == b;
      PayloadEmpty(b);
    } else {
      assert (a + b)[1..] == a[1..] + b;
      PayloadAppend(a[1..], b);
      PayloadFirst(a);
      PayloadFirst(a + b);
      var first := if Skipped(a[0]) then [] else [Trim(a[0])];
      assert first + (Payload(a[1..]) + Payload(b)) == (first + Payload(a[1..])) + Payload(b);
    }
  }

  lemma PayloadEmpty(b: seq<string>)
    ensures Payload(b) == Payload([]) + Payload(b)
  {
    assert [] + Payload(b) == Payload(b);
  }

  lemma PayloadFirst(lines: seq<string>)
    requires lines != []
    ensures Payload(lines) == (if Skipped(lines[0]) then [] else [Trim(lines[0])]) + Payload(lines[1..])
  {
    hide Skipped, Trim;
    assert [] + Payload(lines[1..]) == Payload(lines[1..]);
  }

  /** The combine command: reads lines, collects shares, combines them. */
  method CmdCombine(t: Tables, input: string) returns (r: Result<string, CliError>)
    requires t.Valid()
    ensures r == CombineText(input)
  {
    hide ParseShare, Skipped, Trim, Lines, Payload, ParseAll;
    var lines := Lines(input);
    var parts: seq<Share> := [];
    ParseNone();
    PayloadNone();
    for k := 0 to |lines|
      invariant ParseAll(Payload(lines[..k])) == Ok(parts)
    {
      var line := Trim(lines[k]);
      assert lines[..k + 1] == lines[..k] + [lines[k]];
      PayloadSnoc(lines[..k], lines[k]);
      SkippedIs(lines[k]);
      if line == "" || line[0] == '#' {
        continue;
      }
      ParseAllAppend(Payload(lines[..k]), [line]);
      ParseOne(line);
      assert lines == lines[..k + 1] + lines[k + 1..];
      PayloadAppend(lines[..k + 1], lines[k + 1..]);
      ParseAllAppend(Payload(lines[..k + 1]), Payload(lines[k + 1..]));
      match ParseShare(line) {
        case Err(e) => return Err(e);
        case Ok(s) => parts := parts + [s];
      }
    }
    assert lines[..|lines|] == lines;
    var c := Combine(t, parts);
    match c {
      case Err(e) => return Err(Rejected(e));
      case Ok(master) => return Ok("master-key: " + EncodeHex(master) + "\n");
    }
  }

  lemma ParseOne(line: string)
    ensures ParseShare(line).Ok? ==> ParseAll([line]) == Ok([ParseShare(line).value])
    ensures ParseShare(line).Err? ==> ParseAll([line]) == Err(ParseShare(line).error)
  {
    assert [line][1..] == [];
    hide ParseShare;
    if ParseShare(line).Ok? {
      assert [ParseShare(line).value] + [] == [ParseShare(line).value];
    }
  }

  lemma SkippedIs(line: string)
    ensures Skipped(line) <==> Trim(line) == "" || Trim(line)[0] == '#'
  {}

  // ---- the split command -------------------------------------------------------------------

  function Decimal(n: nat): string {
    if n < 10 then ["0123456789"[n]] else Decimal(n / 10) + ["0123456789"[n % 10]]
  }

  function Header(parts: nat, threshold: nat): seq<string> {
    ["# Master key split into " + Decimal(parts) + " shares; any " + Decimal(threshold) + " reconstruct it.",
     "# Give each share to a" + " different custodian" + " / location."]
  }

  function ShareLines(shares: seq<Share>): seq<string> {
    seq(|shares|, i requires 0 <= i < |shares| => ShareLine(shares[i]))
  }

  function Unlines(lines: seq<string>): string {
    if lines == [] then "" else lines[0] + "\n" + Unlines(lines[1..])
  }

  function SplitText(shares: seq<Share>, parts: nat, threshold: nat): string {
    Unlines(Header(parts, threshold) + ShareLines(shares))
  }

  lemma {:induction false} UnlinesSnoc(lines: seq<string>, line: string)
    ensures Unlines(lines + [line]) == Unlines(lines) + line + "\n"
  {
    if lines == [] {
      assert [line][1..] == [];
    } else {
      UnlinesSnoc(lines[1..], line);
      assert (lines + [line])[1..] == lines[1..] + [line];
    }
  }

  /** The split command on the master key. */
  method CmdSplit(t: Tables, master: seq<Byte>, shares: int, threshold: int, rand: Randomness)
    returns (r: Result<string, SplitError>)
    requires t.Valid()
    ensures SplitResult(master, shares, threshold, rand).Err? ==>
      r == Err(SplitResult(master, shares, threshold, rand).error)
    ensures SplitResult(master, shares, threshold, rand).Ok? ==>
      r == Ok(SplitText(SplitResult(master, shares, threshold, rand).value, shares, threshold))
  {
    hide ShareLine, ShareLines, Header, Unlines, SplitResult;
    SplitCases(master, shares, threshold, rand);
    var s := Split(t, master, shares, threshold, rand);
    match s {
      case Err(e) => return Err(e);
      case Ok(parts) =>
        var lines := Header(shares, threshold);
        var out := Unlines(lines);
        NoShareLines(parts);
        assert lines + [] == lines;
        for i := 0 to |parts|
          invariant out == Unlines(lines + ShareLines(parts[..i]))
        {
          out := out + ShareLine(parts[i]) + "\n";
          UnlinesSnoc(lines + ShareLines(parts[..i]), ShareLine(parts[i]));
          ShareLinesSnoc(parts, i);
          assert lines + (ShareLines(parts[..i]) + [ShareLine(parts[i])]) ==
                 lines + ShareLines(parts[..i]) + [ShareLine(parts[i])];
        }
        assert parts[..|parts|] == parts;
        return Ok(out);
    }
  }

  lemma NoShareLines(parts: seq<Share>)
    ensures ShareLines(parts[..0]) == []
  {}

  lemma ShareLinesSnoc(parts: seq<Share>, i: nat)
    requires i < |parts|
    ensures ShareLines(parts[..i + 1]) == ShareLines(parts[..i]) + [ShareLine(parts[i])]
  {
    hide ShareLine;
  }

  /** Every line up to k codes a share. */
  ghost predicate ParseUpTo(lines: seq<string>, k: nat)
    requires k <= |lines|
  {
    forall i :: 0 <= i < k ==> ParseShare(lines[i]).Ok?
  }

  /** Parsing stops at the first line that is no share, with its error; otherwise it gives every share
      in order. */
  lemma {:induction false} ParseAllAnswers(lines: seq<string>) returns (k: nat)
    ensures k <= |lines| && ParseUpTo(lines, k)
    ensures ParseAll(lines).Ok? <==> k == |lines|
    ensures k < |lines| ==> ParseShare(lines[k]).Err? && ParseAll(lines) == Err(ParseShare(lines[k]).error)
    ensures ParseAll(lines).Ok? ==>
              && |ParseAll(lines).value| == |lines|
              && forall i :: 0 <= i < |lines| ==> ParseShare(lines[i]) == Ok(ParseAll(lines).value[i])
  {
    hide ParseShare;
    k := 0;
    if lines != [] && ParseShare(lines[0]).Ok? {
      var j := ParseAllAnswers(lines[1..]);
      k := j + 1;
      forall i | 0 <= i < k ensures ParseShare(lines[i]).Ok? {
        if i > 0 {
          assert lines[i] == lines[1..][i - 1];
        }
      }
      if ParseAll(lines).Ok? {
        var rest := ParseAll(lines[1..]).value;
        forall i | 0 <= i < |lines| ensures ParseShare(lines[i]) == Ok(ParseAll(lines).value[i]) {
          if i > 0 {
            assert lines[i] == lines[1..][i - 1] && ParseAll(lines).value[i] == rest[i - 1];
          }
        }
      }
    }
  }

  /** The command answers the combined key exactly when every share line parses and the shares are
      acceptable; otherwise the first bad line's error, or what Combine finds wrong. */
  lemma CombineTextAnswers(input: string) returns (k: nat)
    ensures var lines, r := Payload(Lines(input)), CombineText(input);
            && k <= |lines| && ParseUpTo(lines, k)
            && (k < |lines| ==> ParseShare(lines[k]).Err? && r == Err(ParseShare(lines[k]).error))
            && (k == |lines| ==>
                  && ParseAll(lines).Ok?
                  && var shares := ParseAll(lines).value;
                  && (r.Ok? <==> Acceptable(shares))
                  && (r.Ok? ==> r.value == "master-key: " + EncodeHex(CombineResult(shares).value) + "\n")
                  && (r.Err? ==> CombineResult(shares).Err? && r == Err(Rejected(CombineResult(shares).error))))
  {
    hide ParseShare, Payload, Lines, CombineResult, Acceptable, EncodeHex, ParseAll;
    var lines := Payload(Lines(input));
    k := ParseAllAnswers(lines);
    if k == |lines| {
      AcceptableIffOk(ParseAll(lines).value);
    }
  }

  /** The comment lines in front of the printed shares. */
  lemma HeaderAnswers(parts: nat, threshold: nat)
    ensures Header(parts, threshold) ==
            ["# Master key split into " + Decimal(parts) + " shares; any " + Decimal(threshold) + " reconstruct it.",
             "# Give each share to a" + " different custodian" + " / location."]
  {}

  // ---- text round trip ---------------------------------------------------------------------

  lemma {:induction false} ParseShareLines(shares: seq<Share>)
    ensures ParseAll(ShareLines(shares)) == Ok(shares)
  {
    hide ParseShare, ShareLine;
    if shares != [] {
      assert ShareLines(shares)[1..] == ShareLines(shares[1..]) && ShareLines(shares)[0] == ShareLine(shares[0]);
      assert shares == [shares[0]] + shares[1..];
      hide *;
      ParseShareLine(shares[0]);
      ParseShareLines(shares[1..]);
      ParseFirst(ShareLines(shares));
    }
  }

  /** Any text whose lines, besides comments and blanks, are the printed lines of at least
      threshold shares in any order, with any surrounding white space, combines to the master key. */
  lemma TextRoundTrip(master: seq<Byte>, parts: int, threshold: int, rand: Randomness, sel: seq<nat>, input: string)
    requires SplitResult(master, parts, threshold, rand).Ok?
    requires Selection(sel, parts) && |sel| >= threshold
    requires Payload(Lines(input)) == ShareLines(Pick(SplitResult(master, parts, threshold, rand).value, sel))
    ensures CombineText(input) == Ok("master-key: " + EncodeHex(master) + "\n")
  {
    var picked := Pick(SplitResult(master, parts, threshold, rand).value, sel);
    ParseShareLines(picked);
    RoundTrip(master, parts, threshold, rand, sel);
  }

  /** Lines that survive being written with newlines and scanned again. */
  predicate Plain(line: string) {
    '\n' !in line && DropCR(line) == line && ByteSize(line) < MAX_TOKEN
  }

  lemma ConcatAssociative<T>(a: seq<T>, b: seq<T>, c: seq<T>)
    ensures (a + b) + c == a + (b + c)
  {}

  lemma LinesStep(l: string, rest: string)
    requires Plain(l)
    ensures Lines(l + "\n" + rest) == [l] + Lines(rest)
  {
    FirstIndexOf(l, '\n', rest);
    var text := l + "\n" + rest;
    assert text[..|l|] == l && text[|l| + 1..] == rest;
  }

  /** A carriage return before the newline is dropped with it. */
  lemma LinesWithCR(l: string, rest: string)
    requires '\n' !in l && ByteSize(l + "\r") < MAX_TOKEN
    ensures Lines(l + "\r" + "\n" + rest) == [l] + Lines(rest)
  {
    var line := l + "\r";
    FirstIndexOf(line, '\n', rest);
    var text := line + "\n" + rest;
    assert text[..|line|] == line && text[|line| + 1..] == rest && line[..|line| - 1] == l;
  }

  lemma {:induction false} LinesOfUnlines(lines: seq<string>, rest: string)
    requires forall i :: 0 <= i < |lines| ==> Plain(lines[i])
    ensures Lines(Unlines(lines) + rest) == lines + Lines(rest)
  {
    hide Lines, Plain;
    if lines == [] {
      assert Unlines(lines) + rest == rest;
      assert lines + Lines(rest) == Lines(rest);
    } else {
      var l, u := lines[0], Unlines(lines[1..]);
      LinesOfUnlines(lines[1..], rest);
      LinesStep(l, u + rest);
      assert Unlines(lines) == l + "\n" + u;
      hide Unlines;
      ConcatAssociative(l + "\n", u, rest);
      ConcatAssociative([l], lines[1..], Lines(rest));
      assert lines == [l] + lines[1..];
    }
  }

  lemma TrimNoop(s: string)
    requires s != "" ==> !IsSpace(s[0]) && !IsSpace(s[|s| - 1])
    ensures Trim(s) == s
  {}

  /** Trimming takes white space off both ends, all of it and nothing else. */
  lemma {:induction false} TrimAnswers(before: string, core: string, after: string)
    requires (forall c :: c in before ==> IsSpace(c)) && (forall c :: c in after ==> IsSpace(c))
    requires core != "" ==> !IsSpace(core[0]) && !IsSpace(core[|core| - 1])
    ensures Trim(before + core + after) == core
    decreases |before| + |after|
  {
    hide IsSpace;
    var s := before + core + after;
    if before != "" {
      assert IsSpace(before[0]) && s[0] == before[0] && s[1..] == before[1..] + core + after;
      TrimAnswers(before[1..], core, after);
    } else if core == "" {
      assert s == after;
      if after != "" {
        assert after[0] in after && after[1..] == "" + "" + after[1..];
        TrimAnswers("", "", after[1..]);
      }
    } else {
      assert s[0] == core[0] && TrimLeft(s) == s;
      TrimRightPadding(core, after);
      assert s == core + after;
    }
  }

  lemma {:induction false} TrimRightPadding(core: string, after: string)
    requires (forall c :: c in after ==> IsSpace(c)) && core != "" && !IsSpace(core[|core| - 1])
    ensures TrimRight(core + after) == core
    decreases |after|
  {
    hide IsSpace;
    var s := core + after;
    if after == "" {
      assert s == core;
    } else {
      var last := |after| - 1;
      assert s[|s| - 1] == after[last] && after[last] in after;
      assert s[..|s| - 1] == core + after[..last];
      TrimRightPadding(core, after[..last]);
    }
  }

  /** A typed line: a share with white space around it, or a line without one, blank or a comment. */
  datatype Typed = TypedShare(before: string, share: Share, after: string) | Noise(before: string, text: string)

  predicate Blank(s: string) {
    forall c :: c in s ==> IsSpace(c)
  }

  predicate WellTyped(t: Typed) {
    match t
    case TypedShare(before, _, after) => Blank(before) && Blank(after)
    case Noise(before, text) => Blank(before) && (text == "" || text[0] == '#')
  }

  function TypedText(t: Typed): string {
    match t
    case TypedShare(before, share, after) => before + ShareLine(share) + after
    case Noise(before, text) => before + text
  }

  function TypedTexts(typed: seq<Typed>): seq<string> {
    if typed == [] then [] else [TypedText(typed[0])] + TypedTexts(typed[1..])
  }

  function SharesOf(typed: seq<Typed>): seq<Share> {
    if typed == [] then []
    else (if typed[0].TypedShare? then [typed[0].share] else []) + SharesOf(typed[1..])
  }

  /** The filter lets through exactly the shares, without what surrounds them. */
  lemma {:induction false} FilterAnswers(typed: seq<Typed>)
    requires forall i :: 0 <= i < |typed| ==> WellTyped(typed[i])
    ensures Payload(TypedTexts(typed)) == ShareLines(SharesOf(typed))
    decreases |typed|
  {
    hide WellTyped, TypedText, ShareLine, Skipped, Trim;
    if typed != [] {
      var texts := TypedTexts(typed);
      assert texts[0] == TypedText(typed[0]) && texts[1..] == TypedTexts(typed[1..]);
      FilterAnswers(typed[1..]);
      TypedLineFiltered(typed[0]);
      PayloadFirst(texts);
      hide *;
      SharesOfFirst(typed);
    }
  }

  lemma SharesOfFirst(typed: seq<Typed>)
    requires typed != []
    ensures ShareLines(SharesOf(typed)) ==
            (if typed[0].TypedShare? then [ShareLine(typed[0].share)] else []) + ShareLines(SharesOf(typed[1..]))
  {
    var rest := SharesOf(typed[1..]);
    assert SharesOf(typed) == (if typed[0].TypedShare? then [typed[0].share] else []) + rest;
    hide *;
    if typed[0].TypedShare? {
      ShareLinesFirst(typed[0].share, rest);
    } else {
      assert [] + rest == rest && [] + ShareLines(rest) == ShareLines(rest);
    }
  }

  lemma ShareLinesFirst(s: Share, rest: seq<Share>)
    ensures ShareLines([s] + rest) == [ShareLine(s)] + ShareLines(rest)
  {
    hide ShareLine;
    assert ([s] + rest)[1..] == rest;
  }

  lemma TypedLineFiltered(t: Typed)
    requires WellTyped(t)
    ensures t.TypedShare? ==> !Skipped(TypedText(t)) && Trim(TypedText(t)) == ShareLine(t.share)
    ensures t.Noise? ==> Skipped(TypedText(t))
  {
    match t
    case TypedShare(before, share, after) =>
      ShareLinePayload(share);
      ShareLineEnds(share);
      hide ShareLine, IsSpace;
      TrimAnswers(before, ShareLine(share), after);
    case Noise(before, text) =>
      CommentTrimmed(before, text);
  }

  lemma ShareLineEnds(s: Share)
    ensures var l := ShareLine(s); l != "" && !IsSpace(l[0]) && !IsSpace(l[|l| - 1])
  {
    ShareLineShape(s);
    var l := ShareLine(s);
    hide ShareLine;
    assert forall c :: c in HEX_TABLE || c == ':' ==> '0' <= c <= 'f';
  }

  /** A comment stays one under white space in front and after trimming its end. */
  lemma CommentTrimmed(before: string, text: string)
    requires Blank(before) && (text == "" || text[0] == '#')
    ensures Skipped(before + text)
  {
    TrimLeftPadding(before, text);
    if text == "" {
      assert before + text == before + "" + "";
      TrimAnswers(before, "", "");
    } else {
      TrimRightKeeps(text);
    }
  }

  lemma {:induction false} TrimLeftPadding(before: string, text: string)
    requires Blank(before) && (text != "" ==> !IsSpace(text[0]))
    ensures text != "" ==> TrimLeft(before + text) == text
    decreases |before|
  {
    var s := before + text;
    if before == "" {
      assert s == text;
    } else {
      assert s[0] == before[0] && before[0] in before && s[1..] == before[1..] + text;
      TrimLeftPadding(before[1..], text);
    }
  }

  lemma {:induction false} TrimRightKeeps(s: string)
    requires s != "" && !IsSpace(s[0])
    ensures TrimRight(s) != "" && TrimRight(s)[0] == s[0]
    decreases |s|
  {
    if IsSpace(s[|s| - 1]) {
      TrimRightKeeps(s[..|s| - 1]);
    }
  }

  /** A last line needs no newline. */
  lemma LastLine(lines: seq<string>, last: string)
    requires (forall i :: 0 <= i < |lines| ==> Plain(lines[i])) && Plain(last) && last != ""
    ensures Lines(Unlines(lines) + last) == lines + [last]
  {
    IndexOfBound(last, '\n');
    LinesOfUnlines(lines, last);
  }

  /** The same from the lines as they are typed: share lines in any order among blank lines and
      comments, with white space around any of them, one per line, the last with or without its
      newline. */
  lemma TypedRoundTrip(master: seq<Byte>, parts: int, threshold: int, rand: Randomness, sel: seq<nat>,
                       typed: seq<Typed>)
    requires SplitResult(master, parts, threshold, rand).Ok?
    requires Selection(sel, parts) && |sel| >= threshold
    requires forall i :: 0 <= i < |typed| ==> WellTyped(typed[i])
    requires forall i :: 0 <= i < |TypedTexts(typed)| ==> Plain(TypedTexts(typed)[i])
    requires SharesOf(typed) == Pick(SplitResult(master, parts, threshold, rand).value, sel)
    ensures CombineText(Unlines(TypedTexts(typed))) == Ok("master-key: " + EncodeHex(master) + "\n")
    ensures var l := TypedTexts(typed);
            |l| > 0 && l[|l| - 1] != "" ==>
              CombineText(Unlines(l[..|l| - 1]) + l[|l| - 1]) == Ok("master-key: " + EncodeHex(master) + "\n")
  {
    assert |SplitResult(master, parts, threshold, rand).value| == parts by {
      SplitShape(master, parts, threshold, rand);
    }
    var l := TypedTexts(typed);
    hide *;
    FilterAnswers(typed);
    LinesAsTyped(l);
    TextRoundTrip(master, parts, threshold, rand, sel, Unlines(l));
    if |l| > 0 && l[|l| - 1] != "" {
      TextRoundTrip(master, parts, threshold, rand, sel, Unlines(l[..|l| - 1]) + l[|l| - 1]);
    }
  }

  /** Lines written one per line read back as themselves, the last with or without its newline. */
  lemma LinesAsTyped(l: seq<string>)
    requires forall i :: 0 <= i < |l| ==> Plain(l[i])
    ensures Lines(Unlines(l)) == l
    ensures |l| > 0 && l[|l| - 1] != "" ==> Lines(Unlines(l[..|l| - 1]) + l[|l| - 1]) == l
  {
    hide *;
    LinesOfUnlines(l, "");
    EmptyText();
    assert Unlines(l) + "" == Unlines(l) && l + [] == l;
    if |l| > 0 && l[|l| - 1] != "" {
      LastLine(l[..|l| - 1], l[|l| - 1]);
      assert l[..|l| - 1] + [l[|l| - 1]] == l;
    }
  }

  lemma ShareLinePayload(s: Share)
    ensures Trim(ShareLine(s)) == ShareLine(s) && !Skipped(ShareLine(s))
    ensures 2 * |s.Y| + 3 < MAX_TOKEN ==> Plain(ShareLine(s))
    ensures '\n' !in ShareLine(s)
  {
    ShareLineShape(s);
    var l := ShareLine(s);
    hide ShareLine;
    assert forall c :: c in HEX_TABLE || c == ':' ==> '0' <= c <= 'f';
    assert forall c :: '0' <= c <= 'f' ==> !IsSpace(c);
    AsciiSize(l);
    TrimNoop(l);
  }

  lemma {:induction false} ShareLinesPayload(shares: seq<Share>)
    ensures Payload(ShareLines(shares)) == ShareLines(shares)
  {
    hide ShareLine, Skipped, Trim;
    if shares != [] {
      assert ShareLines(shares)[1..] == ShareLines(shares[1..]) && ShareLines(shares)[0] == ShareLine(shares[0]);
      assert ShareLines(shares) == [ShareLine(shares[0])] + ShareLines(shares[1..]);
      hide *;
      ShareLinePayload(shares[0]);
      ShareLinesPayload(shares[1..]);
      PayloadFirst(ShareLines(shares));
    }
  }

  /** The number a text of decimal digits denotes. */
  function FromDecimal(s: string): int {
    if s == "" then 0 else FromDecimal(s[..|s| - 1]) * 10 + (s[|s| - 1] as int - '0' as int)
  }

  lemma {:induction false} DecimalRoundTrip(n: nat)
    ensures FromDecimal(Decimal(n)) == n && Decimal(n) != "" && (n > 0 ==> Decimal(n)[0] != '0')
  {
    var d := n % 10;
    assert d == 0 || d == 1 || d == 2 || d == 3 || d == 4 || d == 5 || d == 6 || d == 7 || d == 8 || d == 9;
    if n >= 10 {
      DecimalRoundTrip(n / 10);
      assert Decimal(n)[..|Decimal(n)| - 1] == Decimal(n / 10);
    } else {
      assert [("0123456789")[n]][..0] == "";
    }
  }

  lemma {:induction false} DecimalChars(n: nat)
    ensures |Decimal(n)| <= n + 1
    ensures forall i :: 0 <= i < |Decimal(n)| ==> '0' <= Decimal(n)[i] <= '9'
  {
    if n >= 10 {
      DecimalChars(n / 10);
    }
  }

  lemma CommentPayload(line: string)
    requires line != "" && line[0] == '#' && !IsSpace(line[|line| - 1])
    ensures Skipped(line) && DropCR(line) == line
  {
    TrimNoop(line);
  }

  /** Printable ASCII, so no line break inside. */
  predicate Inline(s: string) {
    forall i :: 0 <= i < |s| ==> ' ' <= s[i] <= '~'
  }

  lemma TitleInline()
    ensures Inline("# Master key split into ") && Inline(" shares; any ") && Inline(" reconstruct it.")
  {}

  lemma AdviceInline()
    ensures Inline("# Give each share to a") && Inline(" different custodian") && Inline(" / location.")
  {}

  lemma HeaderInline(parts: nat, threshold: nat)
    ensures var h := Header(parts, threshold);
            && h[0] != "" && h[1] != "" && Inline(h[0]) && |h[0]| <= parts + threshold + 60 && h[0][0] == '#'
              && h[0][|h[0]| - 1] == '.'
            && Inline(h[1]) && |h[1]| <= 60 && h[1][0] == '#' && h[1][|h[1]| - 1] == '.'
  {
    DecimalChars(parts);
    DecimalChars(threshold);
    hide Decimal;
    TitleInline();
    AdviceInline();
    assert Inline(Decimal(parts)) && Inline(Decimal(threshold));
  }

  lemma CommentLine(line: string)
    requires line != "" && line[0] == '#' && line[|line| - 1] == '.' && Inline(line) && |line| < MAX_TOKEN
    ensures Skipped(line) && Plain(line)
  {
    CommentPayload(line);
    AsciiSize(line);
  }

  lemma HeaderPayload(parts: nat, threshold: nat)
    requires parts <= 255 && threshold <= 255
    ensures Payload(Header(parts, threshold)) == []
    ensures |Header(parts, threshold)| == 2 && Plain(Header(parts, threshold)[0]) && Plain(Header(parts, threshold)[1])
  {
    var h := Header(parts, threshold);
    HeaderInline(parts, threshold);
    HeaderSize(parts, threshold);
    hide Header, Skipped, Plain, Inline, Trim, Decimal;
    CommentLine(h[0]);
    CommentLine(h[1]);
    assert h == [h[0], h[1]];
    TwoSkipped(h[0], h[1]);
  }

  lemma TwoSkipped(a: string, b: string)
    requires Skipped(a) && Skipped(b)
    ensures Payload([a, b]) == []
  {
    hide Skipped, Trim;
    assert [b][1..] == [];
    assert Payload([b]) == [];
    assert [a, b][1..] == [b];
  }

  lemma HeaderSize(parts: nat, threshold: nat)
    ensures |Header(parts, threshold)| == 2
  {}

  lemma LinesOfLongLine(l: string, rest: string)
    requires '\n' !in l && |l| >= MAX_TOKEN
    ensures Lines(l + "\n" + rest) == []
  {
    FirstIndexOf(l, '\n', rest);
    AsciiSize(l);
    assert (l + "\n" + rest)[..|l|] == l;
  }

  lemma SplitTextLines(shares: seq<Share>, parts: nat, threshold: nat, length: nat)
    requires parts <= 255 && threshold <= 255 && shares != [] && SameLength(shares, length)
    ensures 2 * length + 3 < MAX_TOKEN ==> Payload(Lines(SplitText(shares, parts, threshold))) == ShareLines(shares)
    ensures 2 * length + 3 >= MAX_TOKEN ==> Payload(Lines(SplitText(shares, parts, threshold))) == []
  {
    var h, body := Header(parts, threshold), ShareLines(shares);
    var text := SplitText(shares, parts, threshold);
    HeaderPayload(parts, threshold);
    HeaderSize(parts, threshold);
    hide Header, ShareLine, Skipped, Trim, Plain, Lines, Payload;
    if 2 * length + 3 < MAX_TOKEN {
      forall i | 0 <= i < |h + body| ensures Plain((h + body)[i]) {
        if i >= 2 {
          ShareLinePayload(shares[i - 2]);
        }
      }
      LinesOfUnlines(h + body, "");
      EmptyText();
      assert text + "" == text && h + body + [] == h + body;
      PayloadAppend(h, body);
      ShareLinesPayload(shares);
    } else {
      UnlinesAppend(h, body);
      assert body[0] == ShareLine(shares[0]);
      ShareLineShape(shares[0]);
      ShareLinePayload(shares[0]);
      LinesOfUnlines(h, Unlines(body));
      LinesOfLongLine(ShareLine(shares[0]), Unlines(body[1..]));
      assert h + [] == h;
    }
  }

  lemma EmptyText()
    ensures Lines("") == []
  {}

  /** Feeding the whole output of the split command to the combine command gives the master key
      back exactly when a share line fits the scanner's buffer; longer lines end the scan before
      the first share. The 32-byte master key is far inside. */
  lemma PipelineRoundTrip(master: seq<Byte>, parts: int, threshold: int, rand: Randomness)
    requires SplitResult(master, parts, threshold, rand).Ok?
    ensures var text := SplitText(SplitResult(master, parts, threshold, rand).value, parts, threshold);
            CombineText(text) == Ok("master-key: " + EncodeHex(master) + "\n") <==> 2 * |master| + 3 < 1_048_576
  {
    var shares := SplitResult(master, parts, threshold, rand).value;
    hide *;
    SplitOk(master, parts, threshold, rand);
    SplitAcceptable(master, parts, threshold, rand);
    ReadBack(shares, parts, threshold, |master|);
    AllOf(shares);
    RoundTrip(master, parts, threshold, rand, AllPositions(|shares|));
  }

  lemma ReadBack(shares: seq<Share>, parts: nat, threshold: nat, length: nat)
    requires parts <= 255 && threshold <= 255 && shares != [] && SameLength(shares, length)
    ensures var r := CombineText(SplitText(shares, parts, threshold));
            if 2 * length + 3 >= MAX_TOKEN then r == Err(Rejected(TooFewShares))
            else CombineResult(shares).Ok? ==> r == Ok("master-key: " + EncodeHex(CombineResult(shares).value) + "\n")
  {
    var text := SplitText(shares, parts, threshold);
    hide SplitText, EncodeHex, Payload, Lines, CombineResult, SameLength;
    SplitTextLines(shares, parts, threshold, length);
    ParseShareLines(shares);
    if 2 * length + 3 >= MAX_TOKEN {
      NothingToCombine(text);
    }
  }

  lemma NothingToCombine(text: string)
    requires Payload(Lines(text)) == []
    ensures CombineText(text) == Err(Rejected(TooFewShares))
  {}

  function AllPositions(n: nat): (sel: seq<nat>)
    ensures |sel| == n
  {
    seq(n, i requires 0 <= i < n => i)
  }

  lemma AllOf(shares: seq<Share>)
    ensures Selection(AllPositions(|shares|), |shares|) && Pick(shares, AllPositions(|shares|)) == shares
  {}

  lemma {:induction false} UnlinesAppend(a: seq<string>, b: seq<string>)
    ensures Unlines(a + b) == Unlines(a) + Unlines(b)
  {
    if a == [] {
      assert a + b == b;
    } else {
      UnlinesAppend(a[1..], b);
      assert (a + b)[1..] == a[1..] + b;
    }
  }
}
