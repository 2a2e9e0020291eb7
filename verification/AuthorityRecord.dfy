/** The text format of an authority record and the names of temporary records (authority.rs). */
module AuthorityRecord {
  import opened Base

  const MAX_RECORD_BYTES: nat := 4096
  const U32_LIMIT: nat := 0x1_0000_0000
  const HEX_DIGITS: string := "0123456789abcdef"

  datatype Record = Record(
    canonical: seq<Byte>, dev: nat, ino: nat, uid: nat, mode: nat, objectFormat: string, refFormat: string)

  /** The records the program writes: an absolute path without NUL, machine-word numbers,
      and formats it supports. */
  predicate Valid(r: Record) {
    && AbsolutePath(r.canonical)
    && r.dev < U64_LIMIT && r.ino < U64_LIMIT && r.uid < U32_LIMIT && r.mode < U32_LIMIT
    && r.objectFormat in ["sha1", "sha256"]
    && r.refFormat in ["files", "reftable"]
  }

  predicate AbsolutePath(path: seq<Byte>) {
    path != [] && path[0] == 47 && forall i :: 0 <= i < |path| ==> path[i] != 0
  }

  // ---- Base 16 ----

  function Hex(bytes: seq<Byte>): (text: string) {
    if bytes == [] then ""
    else [HEX_DIGITS[bytes[0] / 16], HEX_DIGITS[bytes[0] % 16]] + Hex(bytes[1..])
  }

  function HexDigit(c: char): Option<nat> {
    if '0' <= c <= '9' then Some(c as nat - '0' as nat)
    else if 'a' <= c <= 'f' then Some(c as nat - 'a' as nat + 10)
    else None
  }

  /** `None` for an odd length or a character that is not a lower-case digit. */
  function Unhex(text: string): (bytes: Option<seq<Byte>>)
    ensures bytes.Some? ==> |bytes.value| * 2 == |text|
  {
    if text == "" then Some([])
    else if |text| == 1 then None
    else
      var high, low, rest := HexDigit(text[0]), HexDigit(text[1]), Unhex(text[2..]);
      if high.Some? && low.Some? && rest.Some?
      then Some([high.value * 16 + low.value] + rest.value)
      else None
  }

  function DecodePath(text: string): Option<seq<Byte>> {
    var bytes := Unhex(text);
    if bytes.Some? && AbsolutePath(bytes.value) then bytes else None
  }

  lemma HexDigitInverse(n: nat)
    requires n < 16
    ensures HexDigit(HEX_DIGITS[n]) == Some(n) && HEX_DIGITS[n] != '\n' && HEX_DIGITS[n] < 128 as char
  {
  }

  lemma UnhexCons(b: Byte, rest: seq<Byte>)
    requires Unhex(Hex(rest)) == Some(rest)
    requires HexDigit(HEX_DIGITS[b / 16]) == Some(b / 16) && HexDigit(HEX_DIGITS[b % 16]) == Some(b % 16)
    ensures Hex([b] + rest) == [HEX_DIGITS[b / 16], HEX_DIGITS[b % 16]] + Hex(rest)
    ensures Unhex(Hex([b] + rest)) == Some([b] + rest)
  {
    hide HexDigit;
    var text := Hex([b] + rest);
    assert ([b] + rest)[1..] == rest;
    assert text[2..] == Hex(rest);
  }

  /** Decoding undoes encoding, and an encoding never contains a line break. */
  lemma {:induction false} UnhexHex(bytes: seq<Byte>)
    ensures Unhex(Hex(bytes)) == Some(bytes)
    ensures |Hex(bytes)| == 2 * |bytes|
    ensures OneLine(Hex(bytes)) && Ascii(Hex(bytes))
  {
    if bytes != [] {
      HexDigitInverse(bytes[0] / 16);
      HexDigitInverse(bytes[0] % 16);
      UnhexHex(bytes[1..]);
      UnhexCons(bytes[0], bytes[1..]);
      assert [bytes[0]] + bytes[1..] == bytes;
    }
  }

  // ---- Decimal numbers ----

  function Decimal(n: nat): (text: string)
    ensures text != ""
  {
    if n < 10 then [HEX_DIGITS[n]] else Decimal(n / 10) + [HEX_DIGITS[n % 10]]
  }

  /** Digits only, with an overflow check at every step. */
  function ParseDigits(text: string, limit: nat): Option<nat> {
    if text == "" then Some(0)
    else
      var last := text[|text| - 1];
      var front := ParseDigits(text[..|text| - 1], limit);
      if front.Some? && '0' <= last <= '9' && front.value * 10 + (last as nat - '0' as nat) < limit
      then Some(front.value * 10 + (last as nat - '0' as nat))
      else None
  }

  /** How an unsigned number is parsed: one leading plus sign and leading zeros are accepted. */
  function ParseNumber(text: string, limit: nat): (n: Option<nat>)
    ensures n.Some? && 0 < limit ==> n.value < limit
  {
    var digits := if text != "" && text[0] == '+' then text[1..] else text;
    if digits == "" then None else ParseDigits(digits, limit)
  }

  predicate AllDigits(text: string) {
    forall i :: 0 <= i < |text| ==> '0' <= text[i] <= '9'
  }

  lemma DecimalDigit(d: nat)
    requires d < 10
    ensures '0' <= HEX_DIGITS[d] <= '9' && HEX_DIGITS[d] as nat - '0' as nat == d
  {
  }

  lemma {:induction false} DecimalDigits(n: nat, limit: nat)
    requires n < limit
    ensures ParseDigits(Decimal(n), limit) == Some(n)
    ensures AllDigits(Decimal(n))
  {
    var text := Decimal(n);
    DecimalDigit(n % 10);
    if n < 10 {
      assert text[..0] == "" && ParseDigits("", limit) == Some(0);
    } else {
      DecimalDigits(n / 10, limit);
      assert text[..|text| - 1] == Decimal(n / 10);
      assert n == n / 10 * 10 + n % 10;
    }
  }

  lemma ParseDecimal(n: nat, limit: nat)
    requires n < limit
    ensures ParseNumber(Decimal(n), limit) == Some(n)
    ensures AllDigits(Decimal(n)) && Ascii(Decimal(n)) && OneLine(Decimal(n))
  {
    hide Decimal, ParseDigits;
    DecimalDigits(n, limit);
    assert '0' <= Decimal(n)[0] <= '9';
  }

  lemma DecimalInjective(m: nat, n: nat)
    requires Decimal(m) == Decimal(n)
    ensures m == n
  {
    hide Decimal, ParseDigits;
    var limit := if m < n then n + 1 else m + 1;
    DecimalDigits(m, limit);
    DecimalDigits(n, limit);
  }

  // ---- Lines ----

  predicate OneLine(text: string) {
    forall i :: 0 <= i < |text| ==> text[i] != '\n'
  }

  predicate Ascii(text: string) {
    forall i :: 0 <= i < |text| ==> text[i] < 128 as char
  }

  /** The pieces between line breaks; there is always at least one. */
  function SplitLines(text: string): (lines: seq<string>)
    ensures lines != []
  {
    if text == "" then [""]
    else
      var rest := SplitLines(text[1..]);
      if text[0] == '\n' then [""] + rest else [[text[0]] + rest[0]] + rest[1..]
  }

  function JoinLines(lines: seq<string>): string
    requires lines != []
  {
    if |lines| == 1 then lines[0] else lines[0] + "\n" + JoinLines(lines[1..])
  }

  lemma {:induction false} SplitOneLine(line: string, rest: string)
    requires OneLine(line)
    ensures SplitLines(line) == [line]
    ensures SplitLines(line + "\n" + rest) == [line] + SplitLines(rest)
  {
    if line == "" {
      assert ("" + "\n" + rest)[1..] == rest;
    } else {
      SplitOneLine(line[1..], rest);
      assert (line + "\n" + rest)[1..] == line[1..] + "\n" + rest;
      assert [line[0]] + line[1..] == line;
    }
  }

  lemma {:induction false} SplitJoinLines(lines: seq<string>)
    requires lines != [] && forall i :: 0 <= i < |lines| ==> OneLine(lines[i])
    ensures SplitLines(JoinLines(lines)) == lines
  {
    if |lines| == 1 {
      SplitOneLine(lines[0], "");
    } else {
      SplitOneLine(lines[0], JoinLines(lines[1..]));
      SplitJoinLines(lines[1..]);
    }
  }

  // ---- The record ----

  function Line(key: string, value: string): string {
    key + "=" + value + "\n"
  }

  function Encode(r: Record): string {
    Line("version", "1") + Line("path", Hex(r.canonical))
    + Line("dev", Decimal(r.dev)) + Line("ino", Decimal(r.ino))
    + Line("uid", Decimal(r.uid)) + Line("mode", Decimal(r.mode))
    + Line("object", r.objectFormat) + Line("ref", r.refFormat)
  }

  /** The value of `key=value`, when it is not empty. */
  function Field(line: string, key: string): Option<string> {
    var prefix := key + "=";
    if prefix < line then Some(line[|prefix|..]) else None
  }

  function Parse(text: string): Option<Record> {
    if text == "" || text[|text| - 1] != '\n' then None
    else
      var fields := SplitLines(text[..|text| - 1]);
      if |fields| != 8 then None else ParseFields(fields)
  }

  function ParseFields(fields: seq<string>): Option<Record>
    requires |fields| == 8
  {
    var version, path := Field(fields[0], "version"), Field(fields[1], "path");
    var dev, ino := Field(fields[2], "dev"), Field(fields[3], "ino");
    var uid, mode := Field(fields[4], "uid"), Field(fields[5], "mode");
    var objects, refs := Field(fields[6], "object"), Field(fields[7], "ref");
    if || version.None? || path.None? || dev.None? || ino.None?
       || uid.None? || mode.None? || objects.None? || refs.None?
       || version.value != "1"
       || objects.value !in ["sha1", "sha256"]
       || refs.value !in ["files", "reftable"]
    then None
    else
      var canonical := DecodePath(path.value);
      var d, i := ParseNumber(dev.value, U64_LIMIT), ParseNumber(ino.value, U64_LIMIT);
      var u, m := ParseNumber(uid.value, U32_LIMIT), ParseNumber(mode.value, U32_LIMIT);
      if canonical.None? || d.None? || i.None? || u.None? || m.None? then None
      else Some(Record(canonical.value, d.value, i.value, u.value, m.value, objects.value, refs.value))
  }

  /** The reader: a size limit, a text check whose verdict on non-ASCII input is given by
      `isText`, the parser, and the comparison with the canonical encoding. */
  function ReadRecord(text: string, isText: bool): Option<Record> {
    if |text| > MAX_RECORD_BYTES || !isText then None
    else
      var parsed := Parse(text);
      if parsed.Some? && Encode(parsed.value) == text then parsed else None
  }

  lemma FieldOfLine(key: string, value: string)
    requires value != ""
    ensures Field(key + "=" + value, key) == Some(value)
  {
    assert key + "=" <= key + "=" + value;
  }

  /** The eight lines of an encoding. */
  function Fields(r: Record): seq<string> {
    ["version" + "=" + "1", "path" + "=" + Hex(r.canonical),
     "dev" + "=" + Decimal(r.dev), "ino" + "=" + Decimal(r.ino),
     "uid" + "=" + Decimal(r.uid), "mode" + "=" + Decimal(r.mode),
     "object" + "=" + r.objectFormat, "ref" + "=" + r.refFormat]
  }

  lemma EncodeIsFields(r: Record)
    requires Valid(r)
    ensures Encode(r) == JoinLines(Fields(r)) + "\n"
    ensures SplitLines(JoinLines(Fields(r))) == Fields(r)
  {
    hide Hex, Decimal, SplitLines, Valid;
    var f := Fields(r);
    assert JoinLines(f[7..]) == f[7];
    assert JoinLines(f[6..]) == f[6] + "\n" + f[7];
    assert JoinLines(f[5..]) == f[5] + "\n" + JoinLines(f[6..]);
    assert JoinLines(f[4..]) == f[4] + "\n" + JoinLines(f[5..]);
    assert JoinLines(f[3..]) == f[3] + "\n" + JoinLines(f[4..]);
    assert JoinLines(f[2..]) == f[2] + "\n" + JoinLines(f[3..]);
    assert JoinLines(f[1..]) == f[1] + "\n" + JoinLines(f[2..]);
    assert JoinLines(f) == f[0] + "\n" + JoinLines(f[1..]);
    FieldsAreLines(r);
    SplitJoinLines(f);
  }

  lemma FieldIsLine(key: string, value: string)
    requires OneLine(key) && OneLine(value)
    ensures OneLine(key + "=" + value)
  {
  }

  lemma KeysAreLines()
    ensures Ascii("version") && Ascii("1") && Ascii("path") && Ascii("dev") && Ascii("ino")
    ensures Ascii("uid") && Ascii("mode") && Ascii("object") && Ascii("ref")
    ensures OneLine("version") && OneLine("1") && OneLine("path") && OneLine("dev") && OneLine("ino")
    ensures OneLine("uid") && OneLine("mode") && OneLine("object") && OneLine("ref")
  {
  }

  /** No value contains a line break or a character beyond ASCII. */
  lemma ValuesAreLines(r: Record)
    requires Valid(r)
    ensures OneLine(Hex(r.canonical)) && OneLine(Decimal(r.dev)) && OneLine(Decimal(r.ino))
    ensures OneLine(Decimal(r.uid)) && OneLine(Decimal(r.mode)) && OneLine(r.objectFormat) && OneLine(r.refFormat)
    ensures Ascii(Hex(r.canonical)) && Ascii(Decimal(r.dev)) && Ascii(Decimal(r.ino))
    ensures Ascii(Decimal(r.uid)) && Ascii(Decimal(r.mode)) && Ascii(r.objectFormat) && Ascii(r.refFormat)
  {
    hide Hex, Decimal, ParseDigits, ParseNumber, Unhex;
    FormatsAreLines(r);
    hide OneLine, Ascii;
    UnhexHex(r.canonical);
    ParseDecimal(r.dev, U64_LIMIT);
    ParseDecimal(r.ino, U64_LIMIT);
    ParseDecimal(r.uid, U32_LIMIT);
    ParseDecimal(r.mode, U32_LIMIT);
  }

  lemma FormatsAreLines(r: Record)
    requires Valid(r)
    ensures OneLine(r.objectFormat) && OneLine(r.refFormat) && Ascii(r.objectFormat) && Ascii(r.refFormat)
  {
  }

  lemma FieldsAreLines(r: Record)
    requires Valid(r)
    ensures forall i :: 0 <= i < 8 ==> OneLine(Fields(r)[i])
  {
    hide *;
    ValuesAreLines(r);
    KeysAreLines();
    FieldIsLine("version", "1");
    FieldIsLine("path", Hex(r.canonical));
    FieldIsLine("dev", Decimal(r.dev));
    FieldIsLine("ino", Decimal(r.ino));
    FieldIsLine("uid", Decimal(r.uid));
    FieldIsLine("mode", Decimal(r.mode));
    FieldIsLine("object", r.objectFormat);
    FieldIsLine("ref", r.refFormat);
    EightLines(Fields(r), r);
  }

  lemma EightLines(fields: seq<string>, r: Record)
    requires fields == Fields(r)
    requires OneLine("version" + "=" + "1") && OneLine("path" + "=" + Hex(r.canonical))
    requires OneLine("dev" + "=" + Decimal(r.dev)) && OneLine("ino" + "=" + Decimal(r.ino))
    requires OneLine("uid" + "=" + Decimal(r.uid)) && OneLine("mode" + "=" + Decimal(r.mode))
    requires OneLine("object" + "=" + r.objectFormat) && OneLine("ref" + "=" + r.refFormat)
    ensures forall i :: 0 <= i < 8 ==> OneLine(fields[i])
  {
    hide OneLine, Hex, Decimal;
  }

  /** Parsing undoes encoding. */
  lemma ParseEncode(r: Record)
    requires Valid(r)
    ensures Parse(Encode(r)) == Some(r)
  {
    EncodeIsFields(r);
    FieldsParse(r);
    hide Encode, JoinLines, SplitLines, ParseFields;
    var text := Encode(r);
    assert text[..|text| - 1] == JoinLines(Fields(r)) && text[|text| - 1] == '\n';
  }

  lemma FieldsParse(r: Record)
    requires Valid(r)
    ensures ParseFields(Fields(r)) == Some(r)
  {
    hide Hex, Decimal, Field, ParseNumber, Unhex, OneLine, Ascii, ParseDigits, AllDigits;
    UnhexHex(r.canonical);
    ParseDecimal(r.dev, U64_LIMIT);
    ParseDecimal(r.ino, U64_LIMIT);
    ParseDecimal(r.uid, U32_LIMIT);
    ParseDecimal(r.mode, U32_LIMIT);
    FieldOfLine("version", "1");
    FieldOfLine("path", Hex(r.canonical));
    FieldOfLine("dev", Decimal(r.dev));
    FieldOfLine("ino", Decimal(r.ino));
    FieldOfLine("uid", Decimal(r.uid));
    FieldOfLine("mode", Decimal(r.mode));
    FieldOfLine("object", r.objectFormat);
    FieldOfLine("ref", r.refFormat);
  }

  /** Whatever the parser accepts is a record the program could have written. */
  lemma ParsedIsValid(text: string)
    requires Parse(text).Some?
    ensures Valid(Parse(text).value)
  {
  }

  lemma EncodeIsAscii(r: Record)
    requires Valid(r)
    ensures Ascii(Encode(r))
  {
    hide *;
    ValuesAreLines(r);
    KeysAreLines();
    AsciiLine("version", "1");
    AsciiLine("path", Hex(r.canonical));
    AsciiLine("dev", Decimal(r.dev));
    AsciiLine("ino", Decimal(r.ino));
    AsciiLine("uid", Decimal(r.uid));
    AsciiLine("mode", Decimal(r.mode));
    AsciiLine("object", r.objectFormat);
    AsciiLine("ref", r.refFormat);
    EncodeIsConcat(r,
      [Line("version", "1"), Line("path", Hex(r.canonical)), Line("dev", Decimal(r.dev)), Line("ino", Decimal(r.ino)),
       Line("uid", Decimal(r.uid)), Line("mode", Decimal(r.mode)), Line("object", r.objectFormat), Line("ref", r.refFormat)]);
  }

  lemma EncodeIsConcat(r: Record, lines: seq<string>)
    requires lines ==
      [Line("version", "1"), Line("path", Hex(r.canonical)), Line("dev", Decimal(r.dev)), Line("ino", Decimal(r.ino)),
       Line("uid", Decimal(r.uid)), Line("mode", Decimal(r.mode)), Line("object", r.objectFormat), Line("ref", r.refFormat)]
    requires forall i :: 0 <= i < 8 ==> Ascii(lines[i])
    ensures Ascii(Encode(r))
  {
    hide Hex, Decimal, Line, Ascii, Valid, AbsolutePath;
    var two := lines[0] + lines[1];
    AsciiConcat(lines[0], lines[1]);
    var four := two + lines[2] + lines[3];
    AsciiConcat(two, lines[2]);
    AsciiConcat(two + lines[2], lines[3]);
    var six := four + lines[4] + lines[5];
    AsciiConcat(four, lines[4]);
    AsciiConcat(four + lines[4], lines[5]);
    AsciiConcat(six, lines[6]);
    AsciiConcat(six + lines[6], lines[7]);
  }

  lemma AsciiConcat(a: string, b: string)
    requires Ascii(a) && Ascii(b)
    ensures Ascii(a + b)
  {
  }

  lemma AsciiLine(key: string, value: string)
    requires Ascii(key) && Ascii(value)
    ensures Ascii(Line(key, value))
  {
  }

  /** Within the size limit, the reader accepts exactly the encodings of valid records, and
      returns the record that was encoded. `isText` is the verdict of the text check, which
      accepts every ASCII string. */
  lemma ReadsExactlyEncodings(text: string, isText: bool, r: Record)
    requires |text| <= MAX_RECORD_BYTES
    requires Ascii(text) ==> isText
    ensures ReadRecord(text, isText) == Some(r) <==> Valid(r) && text == Encode(r)
  {
    if ReadRecord(text, isText) == Some(r) {
      ParsedIsValid(text);
    }
    if Valid(r) && text == Encode(r) {
      ParseEncode(r);
      EncodeIsAscii(r);
    }
  }

  /** Which records can be written and read back: an absolute path without a zero byte, two 64-bit and
      two 32-bit words, one of two object formats and one of two reference formats, in at most 4096
      characters. */
  lemma ReadsBack(r: Record)
    ensures ReadRecord(Encode(r), true) == Some(r) <==>
      && |Encode(r)| <= 4096 && |r.canonical| > 0 && r.canonical[0] == 47 && 0 !in r.canonical
      && r.dev < 0x1_0000_0000_0000_0000 && r.ino < 0x1_0000_0000_0000_0000
      && r.uid < 0x1_0000_0000 && r.mode < 0x1_0000_0000
      && (r.objectFormat == "sha1" || r.objectFormat == "sha256") && (r.refFormat == "files" || r.refFormat == "reftable")
  {
    hide Encode;
    if ReadRecord(Encode(r), true) == Some(r) {
      ParsedIsValid(Encode(r));
    }
    if Valid(r) {
      ParseEncode(r);
    }
  }

  /** A record for the root directory, letter by letter. */
  lemma SampleText()
    ensures Encode(Record([47], 1, 2, 30, 493, "sha1", "files")) ==
      "version=1\n" + "path=2f\n" + "dev=1\n" + "ino=2\n" + "uid=30\n" + "mode=493\n" + "object=sha1\n" + "ref=files\n"
  {
    assert [47][1..] == [] && Hex([]) == "" && Hex([47]) == "2f";
    SampleNumbers();
    hide Decimal, Hex;
    assert Line("version", "1") == "version=1\n" && Line("path", "2f") == "path=2f\n";
    assert Line("dev", "1") == "dev=1\n" && Line("ino", "2") == "ino=2\n";
    assert Line("uid", "30") == "uid=30\n" && Line("mode", "493") == "mode=493\n";
    assert Line("object", "sha1") == "object=sha1\n" && Line("ref", "files") == "ref=files\n";
    hide Line;
  }

  lemma SampleNumbers()
    ensures Decimal(1) == "1" && Decimal(2) == "2" && Decimal(30) == "30" && Decimal(493) == "493"
  {
    assert Decimal(3) == "3" && Decimal(4) == "4";
    assert Decimal(49) == "49";
  }

  // ---- Names of temporary records ----

  /** The name a record transaction gives to its temporary file. */
  function TemporaryName(basename: string, pid: nat, counter: nat): string {
    "." + basename + "-" + Decimal(pid) + "-" + Decimal(counter) + ".tmp"
  }

  /** Splits at the last dash. */
  function SplitComponent(text: string): Option<(string, string)> {
    if text == "" then None
    else if text[|text| - 1] == '-' then Some((text[..|text| - 1], ""))
    else
      var front := SplitComponent(text[..|text| - 1]);
      if front.None? then None
      else Some((front.value.0, front.value.1 + [text[|text| - 1]]))
  }

  /** The record name a temporary name was derived from, or `None` for a foreign name. */
  function FinalName(name: string): Option<string> {
    if |name| < 5 || name[0] != '.' || name[|name| - 4..] != ".tmp" then None
    else
      var outer := SplitComponent(name[1..|name| - 4]);
      if outer.None? then None
      else
        var (stem, counter) := outer.value;
        var inner := SplitComponent(stem);
        if inner.None? then None
        else
          var (basename, pid) := inner.value;
          if basename == "" || pid == "" || counter == "" || !AllDigits(pid) || !AllDigits(counter) then None
          else Some(basename)
  }

  lemma {:induction false} SplitLastDash(front: string, back: string)
    requires AllDigits(back)
    ensures SplitComponent(front + "-" + back) == Some((front, back))
  {
    var text := front + "-" + back;
    if back == "" {
      assert text[..|text| - 1] == front;
    } else {
      assert text[..|text| - 1] == front + "-" + back[..|back| - 1];
      SplitLastDash(front, back[..|back| - 1]);
      assert back[..|back| - 1] + [back[|back| - 1]] == back;
    }
  }

  /** The two numbers and the basename can be read off the name, dashes in the basename or not. */
  lemma SplitTemporaryName(basename: string, pid: nat, counter: nat)
    ensures
      var name := TemporaryName(basename, pid, counter);
      && |name| >= 5 && name[0] == '.' && name[|name| - 4..] == ".tmp"
      && SplitComponent(name[1..|name| - 4]) == Some((basename + "-" + Decimal(pid), Decimal(counter)))
      && SplitComponent(basename + "-" + Decimal(pid)) == Some((basename, Decimal(pid)))
      && AllDigits(Decimal(pid)) && AllDigits(Decimal(counter))
  {
    DecimalDigits(pid, pid + 1);
    DecimalDigits(counter, counter + 1);
    hide Decimal, ParseDigits, SplitComponent;
    var stem := basename + "-" + Decimal(pid);
    var inside := stem + "-" + Decimal(counter);
    var name := TemporaryName(basename, pid, counter);
    assert name == "." + inside + ".tmp";
    Unwrap(inside);
    SplitLastDash(stem, Decimal(counter));
    SplitLastDash(basename, Decimal(pid));
  }

  lemma Unwrap(inside: string)
    ensures
      var name := "." + inside + ".tmp";
      |name| >= 5 && name[0] == '.' && name[|name| - 4..] == ".tmp" && name[1..|name| - 4] == inside
  {
  }

  /** The basename is recovered from every name a transaction generates. */
  lemma FinalNameOfTemporary(basename: string, pid: nat, counter: nat)
    requires basename != ""
    ensures FinalName(TemporaryName(basename, pid, counter)) == Some(basename)
  {
    SplitTemporaryName(basename, pid, counter);
  }

  lemma {:induction false} SplitIsLastDash(text: string)
    requires SplitComponent(text).Some?
    ensures text == SplitComponent(text).value.0 + "-" + SplitComponent(text).value.1
    decreases |text|
  {
    if text[|text| - 1] != '-' {
      SplitIsLastDash(text[..|text| - 1]);
    }
  }

  /** A basename is recovered from exactly the names of that shape, whoever made them. */
  lemma FinalNameIs(name: string, basename: string)
    ensures FinalName(name) == Some(basename) <==> exists pid, counter :: Shaped(name, basename, pid, counter)
  {
    if FinalName(name) == Some(basename) {
      var inside := name[1..|name| - 4];
      SplitIsLastDash(inside);
      var (stem, counter) := SplitComponent(inside).value;
      SplitIsLastDash(stem);
      var pid := SplitComponent(stem).value.1;
      assert name == "." + inside + ".tmp";
      assert inside == basename + "-" + pid + "-" + counter;
      assert name == "." + basename + "-" + pid + "-" + counter + ".tmp";
      assert Shaped(name, basename, pid, counter);
    }
    if exists pid, counter :: Shaped(name, basename, pid, counter) {
      var pid, counter :| Shaped(name, basename, pid, counter);
      ShapedHasName(name, basename, pid, counter);
    }
  }

  lemma ShapedHasName(name: string, basename: string, pid: string, counter: string)
    requires Shaped(name, basename, pid, counter)
    ensures FinalName(name) == Some(basename)
  {
    var stem := basename + "-" + pid;
    var inside := stem + "-" + counter;
    assert name == "." + inside + ".tmp";
    Unwrap(inside);
    forall i | 0 <= i < |counter|
      ensures '0' <= counter[i] <= '9'
    {
      assert counter[i] in counter;
    }
    forall i | 0 <= i < |pid|
      ensures '0' <= pid[i] <= '9'
    {
      assert pid[i] in pid;
    }
    SplitLastDash(stem, counter);
    SplitLastDash(basename, pid);
    hide SplitComponent;
  }

  ghost predicate Shaped(name: string, basename: string, pid: string, counter: string) {
    && name == "." + basename + "-" + pid + "-" + counter + ".tmp"
    && basename != "" && pid != "" && counter != ""
    && (forall c :: c in pid || c in counter ==> '0' <= c <= '9')
  }

  /** A name identifies the record, the process and the serial number it was generated for. */
  lemma TemporaryNameInjective(
    basename: string, pid: nat, counter: nat, basename': string, pid': nat, counter': nat)
    requires TemporaryName(basename, pid, counter) == TemporaryName(basename', pid', counter')
    ensures basename == basename' && pid == pid' && counter == counter'
  {
    SplitTemporaryName(basename, pid, counter);
    SplitTemporaryName(basename', pid', counter');
    DecimalInjective(pid, pid');
    DecimalInjective(counter, counter');
  }
}
