/**
 The log file's record format: the printer of the batch writer and the parser
 of the log readers, and the proof that they undo each other.
 */
module RecordFormat {
  import opened Sequences
  import opened LineSplitting

  /** Nanoseconds since the epoch. */
  type Instant = int

  datatype Level = Stdout | Stderr

  predicate IsAscii(s: string) {
    forall i :: 0 <= i < |s| ==> s[i] < 128 as char
  }

  /** ASCII text as bytes. */
  function Ascii(s: string): (b: Bytes)
    requires IsAscii(s)
    ensures |b| == |s|
    ensures forall i :: 0 <= i < |s| ==> b[i] as int == s[i] as int
  {
    seq(|s|, i requires 0 <= i < |s| => s[i] as int as byte)
  }

  /** An RFC 3339 timestamp as the writer prints it: ASCII, without space or line feed. */
  type Stamp = s: string | IsAscii(s) && (forall i :: 0 <= i < |s| ==> s[i] != ' ' && s[i] != '\n') witness "Z"

  /** The library functions of the readers: lossy UTF-8 decoding and RFC 3339 parsing. */
  datatype Codec = Codec(stamp: Instant -> Stamp, decode: Bytes -> string, parseTime: string -> Option<Instant>)

  /** Lossy decoding passes ASCII bytes through, whatever follows. */
  ghost predicate KeepsAscii(decode: Bytes -> string) {
    && decode([]) == ""
    && forall b: byte, s: Bytes :: b < 128 ==> decode([b] + s) == [b as int as char] + decode(s)
  }

  const NANOS_PER_MILLI := 1_000_000

  /** What is left of an instant, in nanoseconds, that is printed with milliseconds. */
  function ToMillis(t: Instant): Instant {
    t - t % NANOS_PER_MILLI
  }

  /** From 1970 to 9999, where the printed year has four digits. */
  predicate FourDigitYear(t: Instant) {
    0 <= t < 253_402_300_800_000_000_000
  }

  /** A printed timestamp parses, to the instant it was printed for, without the digits below a millisecond. */
  ghost predicate KeepsMillis(codec: Codec) {
    forall t :: FourDigitYear(t) ==> codec.parseTime(codec.stamp(t)) == Some(ToMillis(t))
  }

  // ----- Printing

  datatype LogRecord = LogRecord(timestamp: Instant, content: Bytes, isStderr: bool)

  function Tag(isStderr: bool): (t: string)
    ensures IsAscii(t)
  {
    if isStderr then "ERROR" else "INFO"
  }

  function Prefix(codec: Codec, r: LogRecord): Bytes {
    Ascii(codec.stamp(r.timestamp)) + Ascii(" [") + Ascii(Tag(r.isStderr)) + Ascii("] ")
  }

  predicate EndsWithLf(content: Bytes) {
    content != [] && content[|content| - 1] == LF
  }

  function FormatRecord(codec: Codec, r: LogRecord): Bytes {
    Prefix(codec, r) + r.content + (if EndsWithLf(r.content) then [] else [LF])
  }

  function FormatAll(codec: Codec, rs: seq<LogRecord>): Bytes {
    if rs == [] then [] else FormatRecord(codec, rs[0]) + FormatAll(codec, rs[1..])
  }

  lemma {:induction false} FormatAllAppend(codec: Codec, a: seq<LogRecord>, b: seq<LogRecord>)
    ensures FormatAll(codec, a + b) == FormatAll(codec, a) + FormatAll(codec, b)
  {
    if a == [] {
      assert a + b == b;
    } else {
      assert (a + b)[1..] == a[1..] + b;
      FormatAllAppend(codec, a[1..], b);
      ConcatAssoc(FormatRecord(codec, a[0]), FormatAll(codec, a[1..]), FormatAll(codec, b));
    }
  }

  // ----- Parsing

  datatype Parsed = Parsed(timestamp: Option<Instant>, level: Level, content: string)

  /** The index of the first space, or the length when there is none. */
  function FindSpace(s: string): (p: nat)
    ensures p <= |s|
    ensures forall i :: 0 <= i < p ==> s[i] != ' '
    ensures p < |s| ==> s[p] == ' '
  {
    if s == "" then 0 else if s[0] == ' ' then 0 else 1 + FindSpace(s[1..])
  }

  function ParseLogLine(parseTime: string -> Option<Instant>, line: string): Parsed {
    var space := FindSpace(line);
    if space < |line| then
      var timestamp, rest := parseTime(line[..space]), line[space + 1..];
      if "[ERROR] " <= rest then Parsed(timestamp, Stderr, rest[8..])
      else if "[INFO] " <= rest then Parsed(timestamp, Stdout, rest[7..])
      else Parsed(timestamp, Stdout, rest)
    else
      Parsed(None, Stdout, line)
  }

  /** How a reader sees a file: any decoding and any line parser. */
  datatype View = View(decode: Bytes -> string, parse: string -> Parsed)

  /** The log readers' own view. */
  function ViewOf(codec: Codec): View {
    View(codec.decode, line => ParseLogLine(codec.parseTime, line))
  }

  // ----- Round trip

  lemma {:induction false} DecodeAscii(decode: Bytes -> string, a: string, rest: Bytes)
    requires KeepsAscii(decode) && IsAscii(a)
    ensures decode(Ascii(a) + rest) == a + decode(rest)
  {
    if a == "" {
      assert Ascii(a) + rest == rest;
      assert a + decode(rest) == decode(rest);
    } else {
      var b := a[0] as int as byte;
      assert Ascii(a) + rest == [b] + (Ascii(a[1..]) + rest);
      DecodeAscii(decode, a[1..], rest);
      assert a == [a[0]] + a[1..];
      ConcatAssoc([a[0]], a[1..], decode(rest));
    }
  }

  /** The text between the timestamp and the content. */
  function Marker(isStderr: bool): (m: string)
    ensures IsAscii(m)
  {
    if isStderr then " [ERROR] " else " [INFO] "
  }

  lemma TagIsMarker(isStderr: bool)
    ensures " [" + Tag(isStderr) + "] " == Marker(isStderr)
  {
  }

  lemma AsciiAppend(a: string, b: string)
    requires IsAscii(a) && IsAscii(b)
    ensures IsAscii(a + b) && Ascii(a) + Ascii(b) == Ascii(a + b)
  {
  }

  lemma PrefixIsText(codec: Codec, r: LogRecord)
    ensures Prefix(codec, r) == Ascii(codec.stamp(r.timestamp)) + Ascii(Marker(r.isStderr))
  {
    var stamp := Ascii(codec.stamp(r.timestamp));
    TagIsMarker(r.isStderr);
    AsciiAppend(" [", Tag(r.isStderr));
    AsciiAppend(" [" + Tag(r.isStderr), "] ");
    ConcatAssoc(stamp, Ascii(" ["), Ascii(Tag(r.isStderr)));
    ConcatAssoc(stamp, Ascii(" [") + Ascii(Tag(r.isStderr)), Ascii("] "));
  }

  lemma SpaceAfterStamp(stamp: Stamp, rest: string)
    ensures FindSpace(stamp + [' '] + rest) == |stamp|
  {
    var line := stamp + [' '] + rest;
    assert line[|stamp|] == ' ';
    assert forall i :: 0 <= i < |stamp| ==> line[i] == stamp[i];
  }

  /** What is left of a marker behind its leading space. */
  function Bracketed(isStderr: bool): string {
    if isStderr then "[ERROR] " else "[INFO] "
  }

  lemma MarkerSplits(isStderr: bool)
    ensures Marker(isStderr) == [' '] + Bracketed(isStderr)
  {
  }

  lemma BracketedParses(isStderr: bool, content: string)
    ensures var rest := Bracketed(isStderr) + content;
            if isStderr then "[ERROR] " <= rest && rest[8..] == content
            else !("[ERROR] " <= rest) && "[INFO] " <= rest && rest[7..] == content
  {
    var rest := Bracketed(isStderr) + content;
    if !isStderr {
      assert rest[1] == 'I' && "[ERROR] "[1] == 'E';
    }
  }

  lemma ParseText(parseTime: string -> Option<Instant>, stamp: Stamp, isStderr: bool, content: string)
    ensures ParseLogLine(parseTime, stamp + (Marker(isStderr) + content))
         == Parsed(parseTime(stamp), if isStderr then Stderr else Stdout, content)
  {
    var rest := Bracketed(isStderr) + content;
    var line := stamp + [' '] + rest;
    MarkerSplits(isStderr);
    assert stamp + (Marker(isStderr) + content) == line;
    SpaceAfterStamp(stamp, rest);
    assert line[..|stamp|] == stamp && line[|stamp| + 1..] == rest;
    BracketedParses(isStderr, content);
  }

  /** A line without a space is content as a whole; behind a first word without a level, the rest is. */
  lemma ParsePlain(parseTime: string -> Option<Instant>, word: string, rest: string)
    requires ' ' !in word
    ensures ParseLogLine(parseTime, word) == Parsed(None, Stdout, word)
    ensures !("[ERROR] " <= rest) && !("[INFO] " <= rest) ==>
              ParseLogLine(parseTime, word + [' '] + rest) == Parsed(parseTime(word), Stdout, rest)
  {
    var line := word + [' '] + rest;
    assert forall i :: 0 <= i < |word| ==> word[i] in word;
    assert line[|word|] == ' ' && forall i :: 0 <= i < |word| ==> line[i] == word[i];
    assert line[..|word|] == word && line[|word| + 1..] == rest;
  }

  /**
   Reading back what follows the prefix of a record gives its time to the millisecond, its level and
   its content, whatever the content starts with.
   */
  lemma ParseUndoesPrefix(codec: Codec, r: LogRecord, content: Bytes)
    requires KeepsAscii(codec.decode)
    ensures ParseLogLine(codec.parseTime, codec.decode(Prefix(codec, r) + content))
         == Parsed(codec.parseTime(codec.stamp(r.timestamp)), if r.isStderr then Stderr else Stdout,
                   codec.decode(content))
    ensures var parsed := ParseLogLine(codec.parseTime, codec.decode(Prefix(codec, r) + content));
            KeepsMillis(codec) && FourDigitYear(r.timestamp) ==> parsed.timestamp == Some(ToMillis(r.timestamp))
  {
    var stamp, marker := codec.stamp(r.timestamp), Marker(r.isStderr);
    PrefixIsText(codec, r);
    ConcatAssoc(Ascii(stamp), Ascii(marker), content);
    DecodeAscii(codec.decode, stamp, Ascii(marker) + content);
    DecodeAscii(codec.decode, marker, content);
    ParseText(codec.parseTime, stamp, r.isStderr, codec.decode(content));
  }

  /** A record of one line is one line of the file. */
  lemma RecordIsLine(codec: Codec, r: LogRecord)
    requires IsLine(r.content)
    ensures IsLine(FormatRecord(codec, r))
    ensures FormatRecord(codec, r) == Prefix(codec, r) + r.content
  {
    PrefixIsText(codec, r);
    var prefix, f := Prefix(codec, r), FormatRecord(codec, r);
    PrefixLfFree(codec, r);
    assert f == prefix + r.content;
    assert f[..|f| - 1] == prefix + r.content[..|r.content| - 1];
  }

  lemma PrefixLfFree(codec: Codec, r: LogRecord)
    ensures LfFree(Prefix(codec, r))
  {
    PrefixIsText(codec, r);
    var m := Marker(r.isStderr);
    assert forall i :: 0 <= i < |m| ==> m[i] != '\n';
  }
}
