/** The openssh-key-v1 container (internal/probe/credentials_parse.go; OpenSSH PROTOCOL.key, with the
    length-prefixed strings of section 5 of RFC 4251). */
module OpenSshKey {
  import opened Strings
  import opened Sequences
  import opened Wrappers

  type Byte = n: nat | n < 256
  type Bytes = seq<Byte>

  // ---------------------------------------------------------------- the text around the container

  /** unicode.IsSpace, as strings.TrimSpace has it. */
  predicate IsSpace(c: char) {
    || '\t' <= c <= '\r' || c == ' ' || c == '\U{0085}' || c == '\U{00A0}'
    || c == '\U{1680}' || '\U{2000}' <= c <= '\U{200A}' || c == '\U{2028}' || c == '\U{2029}'
    || c == '\U{202F}' || c == '\U{205F}' || c == '\U{3000}'
  }

  function TrimLeft(s: string): string {
    if s != "" && IsSpace(s[0]) then TrimLeft(s[1..]) else s
  }

  function TrimRight(s: string): string {
    if s != "" && IsSpace(s[|s| - 1]) then TrimRight(s[..|s| - 1]) else s
  }

  function Trim(s: string): string {
    TrimRight(TrimLeft(s))
  }

  function Lines(s: string): (r: seq<string>)
    ensures r != []
  {
    Split(s, '\n')
  }

  const END := "-----END"

  predicate EndsKey(line: string) {
    END <= line
  }

  /** The trimmed lines up to the end marker, joined. */
  function Body(lines: seq<string>): string {
    if lines == [] || EndsKey(Trim(lines[0])) then "" else Trim(lines[0]) + Body(lines[1..])
  }

  method JoinLines(text: string) returns (body: string)
    ensures body == Body(Lines(text)[1..])
  {
    body := "";
    var lines := Lines(text)[1..];
    var i := 0;
    while i < |lines|
      invariant i <= |lines| && body + Body(lines[i..]) == Body(lines)
    {
      var line := Trim(lines[i]);
      assert lines[i..][1..] == lines[i + 1..];
      if EndsKey(line) { return; }
      assert body + (line + Body(lines[i + 1..])) == body + line + Body(lines[i + 1..]);
      body := body + line;
      i := i + 1;
    }
  }

  // ---------------------------------------------------------------- length-prefixed fields

  const WIDTH: nat := 0x1_0000_0000

  /** binary.BigEndian.Uint32. */
  function Uint32(b: Bytes): (n: nat)
    requires |b| >= 4
    ensures n < WIDTH
  {
    (b[0] as int) * 0x100_0000 + (b[1] as int) * 0x1_0000 + (b[2] as int) * 0x100 + b[3]
  }

  function BigEndian(n: nat): Bytes
    requires n < WIDTH
  {
    [n / 0x100_0000, n / 0x1_0000 % 0x100, n / 0x100 % 0x100, n % 0x100]
  }

  lemma BigEndianRoundTrip(n: nat)
    requires n < WIDTH
    ensures Uint32(BigEndian(n)) == n
  {
    assert n / 0x1_0000 == n / 0x100_0000 * 0x100 + n / 0x1_0000 % 0x100;
    assert n / 0x100 == n / 0x1_0000 * 0x100 + n / 0x100 % 0x100;
  }

  lemma Uint32RoundTrip(b: Bytes)
    requires |b| == 4
    ensures BigEndian(Uint32(b)) == b
  {
    var n := Uint32(b);
    var b0: int, b1: int, b2: int := b[0], b[1], b[2];
    assert n / 0x100 == b0 * 0x1_0000 + b1 * 0x100 + b2;
    assert n / 0x1_0000 == b0 * 0x100 + b1;
    assert n / 0x100_0000 == b0;
  }

  /** A string of RFC 4251: its length in four bytes, then its bytes. */
  function Str(field: Bytes): Bytes
    requires |field| < WIDTH
  {
    BigEndian(|field|) + field
  }

  /** The next field and what follows it, if rest holds a whole one. */
  function Next(rest: Bytes): Option<(Bytes, Bytes)> {
    if |rest| < 4 || Uint32(rest) > |rest| - 4 then None
    else Some((rest[4..4 + Uint32(rest)], rest[4 + Uint32(rest)..]))
  }

  /** A field is read exactly when the bytes begin with an RFC 4251 string, and it is that string. */
  lemma NextExactlyWhen(rest: Bytes, field: Bytes, tail: Bytes)
    ensures Next(rest) == Some((field, tail)) <==> |field| < WIDTH && rest == Str(field) + tail
  {
    if |field| < WIDTH && rest == Str(field) + tail {
      BigEndianRoundTrip(|field|);
      assert rest[4..4 + |field|] == field && rest[4 + |field|..] == tail;
    }
    if Next(rest) == Some((field, tail)) {
      Uint32RoundTrip(rest[..4]);
      assert Uint32(rest[..4]) == Uint32(rest);
      assert rest == rest[..4] + (rest[4..4 + |field|] + rest[4 + |field|..]);
      assert rest == Str(field) + tail;
    }
  }

  // ---------------------------------------------------------------- the container

  /** "openssh-key-v1" and a zero byte. */
  const MAGIC: Bytes := [111, 112, 101, 110, 115, 115, 104, 45, 107, 101, 121, 45, 118, 49, 0]
  const NONE: Bytes := [110, 111, 110, 101]

  datatype Container = Container(cipher: Bytes, kdfName: Bytes, kdfOptions: Bytes, keys: Bytes, blob: Bytes,
                                 tail: Bytes)

  predicate WellFormed(c: Container) {
    |c.cipher| < WIDTH && |c.kdfName| < WIDTH && |c.kdfOptions| < WIDTH && |c.keys| == 4 && |c.blob| < WIDTH
  }

  function AfterMagic(c: Container): Bytes
    requires WellFormed(c)
  {
    Str(c.cipher) + (Str(c.kdfName) + (Str(c.kdfOptions) + (c.keys + (Str(c.blob) + c.tail))))
  }

  function Encoded(c: Container): Bytes
    requires WellFormed(c)
  {
    MAGIC + AfterMagic(c)
  }

  datatype PublicPart = PublicPart(encrypted: bool, blob: Bytes)

  function Fields(rest: Bytes): Option<Container> {
    match Next(rest)
    case None => None
    case Some((cipher, r1)) =>
      match Next(r1)
      case None => None
      case Some((kdfName, r2)) =>
        match Next(r2)
        case None => None
        case Some((kdfOptions, r3)) =>
          if |r3| < 4 then None else
            match Next(r3[4..])
            case None => None
            case Some((blob, tail)) => Some(Container(cipher, kdfName, kdfOptions, r3[..4], blob, tail))
  }

  lemma FieldsExactlyWhen(rest: Bytes, c: Container)
    ensures Fields(rest) == Some(c) <==> WellFormed(c) && rest == AfterMagic(c)
  {
    if WellFormed(c) && rest == AfterMagic(c) {
      var r4 := Str(c.blob) + c.tail;
      var r3 := c.keys + r4;
      NextExactlyWhen(rest, c.cipher, Str(c.kdfName) + (Str(c.kdfOptions) + r3));
      NextExactlyWhen(Str(c.kdfName) + (Str(c.kdfOptions) + r3), c.kdfName, Str(c.kdfOptions) + r3);
      NextExactlyWhen(Str(c.kdfOptions) + r3, c.kdfOptions, r3);
      assert r3[..4] == c.keys && r3[4..] == r4;
      NextExactlyWhen(r4, c.blob, c.tail);
    }
    if Fields(rest) == Some(c) {
      var r1 := Next(rest).value.1;
      var r2 := Next(r1).value.1;
      var r3 := Next(r2).value.1;
      NextExactlyWhen(rest, c.cipher, r1);
      NextExactlyWhen(r1, c.kdfName, r2);
      NextExactlyWhen(r2, c.kdfOptions, r3);
      NextExactlyWhen(r3[4..], c.blob, c.tail);
      assert r3 == r3[..4] + r3[4..];
    }
  }

  /** A byte string is at most one container. */
  lemma ParsedExactlyWhen(raw: Bytes, rest: Bytes)
    requires raw == MAGIC + rest
    ensures Fields(rest).Some? ==> WellFormed(Fields(rest).value) && raw == Encoded(Fields(rest).value)
    ensures forall c :: WellFormed(c) && raw == Encoded(c) ==> Fields(rest) == Some(c)
  {
    if Fields(rest).Some? { FieldsExactlyWhen(rest, Fields(rest).value); }
    forall c | WellFormed(c) && raw == Encoded(c)
      ensures Fields(rest) == Some(c)
    {
      assert rest == raw[|MAGIC|..] && Encoded(c)[|MAGIC|..] == AfterMagic(c);
      FieldsExactlyWhen(rest, c);
    }
  }

  /** The closure next: takes a field off rest, or leaves rest alone. */
  method TakeField(rest: Bytes) returns (field: Bytes, ok: bool, left: Bytes)
    ensures ok <==> Next(rest).Some?
    ensures if ok then Next(rest) == Some((field, left)) else left == rest
  {
    if |rest| < 4 { return [], false, rest; }
    var n := Uint32(rest);
    if n > |rest| - 4 { return [], false, rest; }
    return rest[4..4 + n], true, rest[4 + n..];
  }

  function Public(raw: Bytes): Option<PublicPart> {
    if |raw| < |MAGIC| || raw[..|MAGIC|] != MAGIC then None else
      match Fields(raw[|MAGIC|..])
      case None => None
      case Some(c) => Some(PublicPart(c.cipher != NONE, c.blob))
  }

  /** The parser succeeds exactly on the encodings of containers, whatever their fields hold, and then
      gives the container's blob and whether its cipher is other than "none". */
  lemma PublicExactlyWhen(raw: Bytes)
    ensures Public(raw).Some? <==> exists c :: WellFormed(c) && raw == Encoded(c)
    ensures forall c :: WellFormed(c) && raw == Encoded(c) ==> Public(raw) == Some(PublicPart(c.cipher != NONE, c.blob))
  {
    if |raw| < |MAGIC| || raw[..|MAGIC|] != MAGIC {
      forall c | WellFormed(c)
        ensures raw != Encoded(c)
      {
        assert Encoded(c)[..|MAGIC|] == MAGIC;
      }
    } else {
      assert raw == MAGIC + raw[|MAGIC|..];
      ParsedExactlyWhen(raw, raw[|MAGIC|..]);
    }
  }

  /** Reads the container field by field; no read leaves the buffer, because every index is checked when
      this method is verified. */
  method ParseContainer(raw: Bytes) returns (r: Option<PublicPart>)
    ensures r == Public(raw)
  {
    if |raw| < |MAGIC| || raw[..|MAGIC|] != MAGIC { return None; }
    var rest := raw[|MAGIC|..];
    var cipher, ok1, kdfName, ok2, kdfOptions, ok3, blob, ok;
    cipher, ok1, rest := TakeField(rest);
    kdfName, ok2, rest := TakeField(rest);
    kdfOptions, ok3, rest := TakeField(rest);
    if !ok1 || !ok2 || !ok3 || |rest| < 4 { return None; }
    rest := rest[4..];
    blob, ok, rest := TakeField(rest);
    if !ok { return None; }
    return Some(PublicPart(cipher != NONE, blob));
  }


  // ---------------------------------------------------------------- wrapped text

  predicate NoNewline(line: string) {
    '\n' !in line
  }

  /** Lines, each ended by a newline, and then more text. */
  function Written(lines: seq<string>, rest: string): string {
    if lines == [] then rest else lines[0] + "\n" + Written(lines[1..], rest)
  }

  lemma {:induction false} WrittenLines(lines: seq<string>, rest: string)
    requires forall k :: 0 <= k < |lines| ==> NoNewline(lines[k])
    ensures Lines(Written(lines, rest)) == lines + Lines(rest)
  {
    if lines == [] {
      assert lines + Lines(rest) == Lines(rest);
    } else {
      SplitAtFirst(lines[0], '\n', Written(lines[1..], rest));
      WrittenLines(lines[1..], rest);
      Associate([lines[0]], lines[1..], Lines(rest));
      assert [lines[0]] + lines[1..] == lines;
    }
  }

  /** The text the lines carry once blanks around them are trimmed. */
  function Carried(lines: seq<string>): string {
    if lines == [] then "" else Trim(lines[0]) + Carried(lines[1..])
  }

  predicate AreBodyLines(lines: seq<string>) {
    forall k :: 0 <= k < |lines| ==> NoNewline(lines[k]) && !EndsKey(Trim(lines[k]))
  }

  lemma {:induction false} BodyIsCarried(lines: seq<string>, footer: seq<string>)
    requires AreBodyLines(lines) && footer != [] && EndsKey(Trim(footer[0]))
    ensures Body(lines + footer) == Carried(lines)
  {
    if lines == [] {
      assert lines + footer == footer;
    } else {
      assert (lines + footer)[1..] == lines[1..] + footer;
      BodyIsCarried(lines[1..], footer);
    }
  }

  /** A key file: a first line, the body lines, the end marker, and whatever follows. */
  function KeyText(header: string, lines: seq<string>, footer: string): string {
    Written([header] + lines, footer)
  }

  /** However the body is broken into lines and padded with blanks, what is decoded is what the lines carry. */
  lemma BodyOfKeyText(header: string, lines: seq<string>, footer: string)
    requires NoNewline(header) && AreBodyLines(lines) && EndsKey(Trim(Lines(footer)[0]))
    ensures Body(Lines(KeyText(header, lines, footer))[1..]) == Carried(lines)
  {
    WrittenLines([header] + lines, footer);
    assert ([header] + lines + Lines(footer))[1..] == lines + Lines(footer);
    BodyIsCarried(lines, Lines(footer));
  }

  // ---------------------------------------------------------------- lines of a given width

  /** Text wrapped at width characters. */
  function Wrapped(s: string, width: nat): seq<string>
    requires width > 0
    decreases |s|
  {
    if |s| <= width then [s] else [s[..width]] + Wrapped(s[width..], width)
  }

  /** The characters of base64 text are neither blanks nor dashes. */
  predicate IsBase64Char(c: char) {
    'A' <= c <= 'Z' || 'a' <= c <= 'z' || '0' <= c <= '9' || c == '+' || c == '/' || c == '='
  }

  predicate IsBase64(s: string) {
    forall k :: 0 <= k < |s| ==> IsBase64Char(s[k])
  }

  lemma Base64LineIsKept(s: string)
    requires IsBase64(s)
    ensures Trim(s) == s && NoNewline(s) && !EndsKey(s)
  {
    assert END[0] == '-';
    assert s != "" ==> s[0] != '-';
  }

  lemma {:induction false} WrappedCarries(s: string, width: nat)
    requires width > 0 && IsBase64(s)
    ensures AreBodyLines(Wrapped(s, width)) && Carried(Wrapped(s, width)) == s
    decreases |s|
  {
    if |s| <= width {
      Base64LineIsKept(s);
      assert Carried([s]) == s + Carried([]);
    } else {
      Base64LineIsKept(s[..width]);
      WrappedCarries(s[width..], width);
      var all := [s[..width]] + Wrapped(s[width..], width);
      assert all[1..] == Wrapped(s[width..], width);
      assert s == s[..width] + s[width..];
    }
  }

  // ---------------------------------------------------------------- the whole parser

  /** keyType is what ssh.ParsePublicKey finds, or "openssh". */
  datatype PrivateKey = PrivateKey(keyType: string, encrypted: bool, fingerprint: string)

  /** base64 decoding, public-key parsing and hashing, as the parser uses them. */
  datatype Codec = Codec(decode: string -> Option<Bytes>, parsePublic: Bytes -> Option<string>, hash: Bytes -> string)

  function Described(lib: Codec, p: PublicPart): PrivateKey {
    var t := lib.parsePublic(p.blob);
    PrivateKey(if t.Some? then t.value else "openssh", p.encrypted, lib.hash(p.blob))
  }

  function Parsed(text: string, lib: Codec): Option<PrivateKey> {
    match lib.decode(Body(Lines(text)[1..]))
    case None => None
    case Some(raw) => match Public(raw) case None => None case Some(p) => Some(Described(lib, p))
  }

  /** openSSHPrivateKey. */
  method OpenSSHPrivateKey(text: string, lib: Codec) returns (r: Option<PrivateKey>)
    ensures r == Parsed(text, lib)
  {
    var body := JoinLines(text);
    var raw := lib.decode(body);
    if raw.None? { return None; }
    var p := ParseContainer(raw.value);
    if p.None? { return None; }
    return Some(Described(lib, p.value));
  }

  /** The bytes of ASCII text. */
  function Ascii(text: string): Bytes
    requires forall k :: 0 <= k < |text| ==> text[k] as int < 128
  {
    seq(|text|, k requires 0 <= k < |text| => text[k] as int)
  }

  lemma MarkersAreSpelled()
    ensures MAGIC == Ascii("openssh-key-v1") + [0] && NONE == Ascii("none")
  {
    assert "openssh-key-v1" == ['o', 'p', 'e', 'n', 's', 's', 'h', '-', 'k', 'e', 'y', '-', 'v', '1'];
    assert "none" == ['n', 'o', 'n', 'e'];
  }

  /** What is said of a container: the type of its public key, or "openssh" where that cannot be told;
      encrypted, unless its cipher is "none"; the hash of its public blob. */
  function Reading(c: Container, lib: Codec): PrivateKey {
    var t := lib.parsePublic(c.blob);
    PrivateKey(if t.None? then "openssh" else t.value, c.cipher != Ascii("none"), lib.hash(c.blob))
  }

  /** The bytes of a container, from the marker on. */
  function Wire(c: Container): Bytes
    requires WellFormed(c)
  {
    Ascii("openssh-key-v1") + [0] + AfterMagic(c)
  }

  lemma WireIsRead(c: Container, lib: Codec)
    requires WellFormed(c)
    ensures Public(Wire(c)).Some? && Described(lib, Public(Wire(c)).value) == Reading(c, lib)
  {
    MarkersAreSpelled();
    PublicExactlyWhen(Encoded(c));
  }

  /** A container encoded in base64, in lines of any width, between any header and end marker, is parsed
      back to its public blob, and reads encrypted exactly when its cipher is not "none". */
  lemma ParsingUndoesWriting(c: Container, base64: string, lib: Codec, header: string, width: nat, footer: string)
    requires WellFormed(c) && width > 0 && NoNewline(header) && "-----END" <= Trim(Lines(footer)[0])
    requires IsBase64(base64) && lib.decode(base64) == Some(Wire(c))
    ensures Parsed(KeyText(header, Wrapped(base64, width), footer), lib) == Some(Reading(c, lib))
  {
    WrappedCarries(base64, width);
    BodyOfKeyText(header, Wrapped(base64, width), footer);
    WireIsRead(c, lib);
  }

  /** The same for any line breaks and any blanks around the lines, such as carriage returns. */
  lemma LayoutDoesNotMatter(c: Container, lines: seq<string>, lib: Codec, header: string, footer: string)
    requires WellFormed(c) && NoNewline(header) && "-----END" <= Trim(Lines(footer)[0])
    requires forall k :: 0 <= k < |lines| ==> NoNewline(lines[k]) && !("-----END" <= Trim(lines[k]))
    requires lib.decode(Carried(lines)) == Some(Wire(c))
    ensures Parsed(KeyText(header, lines, footer), lib) == Some(Reading(c, lib))
  {
    BodyOfKeyText(header, lines, footer);
    WireIsRead(c, lib);
  }

  lemma WireExactlyWhen(raw: Bytes)
    ensures Public(raw).Some? <==> exists c :: WellFormed(c) && raw == Wire(c)
  {
    MarkersAreSpelled();
    PublicExactlyWhen(raw);
    if Public(raw).Some? {
      var c :| WellFormed(c) && raw == Encoded(c);
      assert raw == Wire(c);
    }
    if c :| WellFormed(c) && raw == Wire(c) {
      assert raw == Encoded(c);
    }
  }

  lemma BodyExactlyWhen(text: string, lib: Codec, body: string)
    requires body == Body(Lines(text)[1..])
    ensures Parsed(text, lib).Some? <==>
            lib.decode(body).Some? && exists c :: WellFormed(c) && lib.decode(body).value == Wire(c)
  {
    var raw := lib.decode(body);
    if raw.Some? { WireExactlyWhen(raw.value); }
  }

  /** Text is a key exactly when what its lines carry decodes to a container. */
  lemma KeyExactlyWhen(lines: seq<string>, lib: Codec, header: string, footer: string)
    requires NoNewline(header) && "-----END" <= Trim(Lines(footer)[0])
    requires forall k :: 0 <= k < |lines| ==> NoNewline(lines[k]) && !("-----END" <= Trim(lines[k]))
    ensures Parsed(KeyText(header, lines, footer), lib).Some? <==>
            lib.decode(Carried(lines)).Some?
            && exists c :: WellFormed(c) && lib.decode(Carried(lines)).value == Wire(c)
  {
    BodyOfKeyText(header, lines, footer);
    BodyExactlyWhen(KeyText(header, lines, footer), lib, Carried(lines));
  }

  /** Trimming removes exactly the blanks at both ends. */
  lemma TrimExactlyWhen(blanks: string, s: string, more: string)
    requires forall k :: 0 <= k < |blanks| ==> IsSpace(blanks[k])
    requires forall k :: 0 <= k < |more| ==> IsSpace(more[k])
    requires s != "" ==> !IsSpace(s[0]) && !IsSpace(s[|s| - 1])
    ensures Trim(blanks + s + more) == s
  {
    if s == "" {
      assert blanks + s + more == blanks + more;
      AllBlank(blanks + more);
    } else {
      LeftTrimmed(blanks, s + more);
      assert blanks + s + more == blanks + (s + more);
      RightTrimmed(s, more);
    }
  }

  lemma {:induction false} AllBlank(s: string)
    requires forall k :: 0 <= k < |s| ==> IsSpace(s[k])
    ensures TrimLeft(s) == ""
  {
    if s == "" {
    } else {
      AllBlank(s[1..]);
    }
  }

  lemma {:induction false} LeftTrimmed(blanks: string, s: string)
    requires (forall k :: 0 <= k < |blanks| ==> IsSpace(blanks[k])) && s != "" && !IsSpace(s[0])
    ensures TrimLeft(blanks + s) == s
  {
    if blanks == "" {
      assert blanks + s == s;
    } else {
      LeftTrimmed(blanks[1..], s);
      assert (blanks + s)[1..] == blanks[1..] + s;
    }
  }

  lemma {:induction false} RightTrimmed(s: string, more: string)
    requires (forall k :: 0 <= k < |more| ==> IsSpace(more[k])) && s != "" && !IsSpace(s[|s| - 1])
    ensures TrimRight(s + more) == s
  {
    if more == "" {
      assert s + more == s;
    } else {
      RightTrimmed(s, more[..|more| - 1]);
      assert (s + more)[..|s + more| - 1] == s + more[..|more| - 1];
    }
  }
}
