/**
  Reading of lines and of message data by the inbound mail server
  (internal/gateway/email.go): the receiver's half of transparency, section
  4.5.2 of RFC 5321, over bytes.
*/
module SmtpData {
  import opened Wrappers

  const CRLF := "\r\n"

  // ---- lines ------------------------------------------------------------

  /** The position of the first line feed, or the length when there is none. */
  function FirstLF(s: string): (i: nat)
    ensures i <= |s|
    ensures '\n' !in s[..i]
    ensures i < |s| ==> s[i] == '\n'
  {
    if s == "" || s[0] == '\n' then 0 else 1 + FirstLF(s[1..])
  }

  predicate LineEnd(c: char) {
    c == '\r' || c == '\n'
  }

  /** Drops every trailing carriage return and line feed. */
  function TrimRight(s: string): string {
    if s != "" && LineEnd(s[|s| - 1]) then TrimRight(s[..|s| - 1]) else s
  }

  datatype Line = Line(text: string, rest: string)

  /** The next line, or None when the input ends without a line feed. */
  function NextLine(input: string): (r: Option<Line>)
    ensures r.Some? ==> |r.value.rest| < |input|
  {
    var i := FirstLF(input);
    if i == |input| then None else Some(Line(TrimRight(input[..i + 1]), input[i + 1..]))
  }

  // ---- message data -----------------------------------------------------

  /** A leading ".." stands for "."; any other line is left as it is. */
  function Unstuff(line: string): string {
    if |line| >= 2 && line[0] == '.' && line[1] == '.' then line[1..] else line
  }

  /** The message as CRLF-terminated lines. */
  function Join(lines: seq<string>): string {
    if lines == [] then "" else lines[0] + CRLF + Join(lines[1..])
  }

  datatype Data = Data(lines: seq<string>, rest: string)

  /** The lines up to a line that is just ".", and the input after it. */
  function ReadData(input: string): (r: Option<Data>)
    ensures r.Some? ==> |r.value.rest| < |input|
    decreases |input|
  {
    match NextLine(input)
    case None => None
    case Some(Line(text, rest)) =>
      if text == "." then Some(Data([], rest))
      else
        match ReadData(rest)
        case None => None
        case Some(Data(lines, rest')) => Some(Data([Unstuff(text)] + lines, rest'))
  }

  /** The connection's buffered reader. */
  class Reader {
    var pending: string

    constructor (input: string)
      ensures pending == input
    {
      pending := input;
    }

    /** At the end of the input the unfinished line is consumed and lost. */
    method readLine() returns (line: Option<string>)
      modifies this
      ensures match NextLine(old(pending))
        case None => line == None && pending == ""
        case Some(next) => line == Some(next.text) && pending == next.rest
    {
      var i := FirstLF(pending);
      if i == |pending| {
        pending := "";
        return None;
      }
      line := Some(TrimRight(pending[..i + 1]));
      pending := pending[i + 1..];
    }

    /** The loop of handleDATA: the body built so far is a string. */
    method readBody() returns (body: Option<string>)
      modifies this
      ensures match ReadData(old(pending))
        case None => body == None && pending == ""
        case Some(data) => body == Some(Join(data.lines)) && pending == data.rest
    {
      var built := "";
      ghost var lines: seq<string> := [];
      ghost var whole := ReadData(pending);
      assert whole.Some? ==> [] + whole.value.lines == whole.value.lines;
      while true
        invariant built == Join(lines)
        invariant whole == Prepend(lines, ReadData(pending))
        decreases |pending|
      {
        var line := readLine();
        if line == None {
          return None;
        }
        if line.value == "." {
          PrependNone(lines, pending);
          return Some(built);
        }
        PrependOne(lines, Unstuff(line.value), ReadData(pending));
        JoinAppend(lines, Unstuff(line.value));
        lines := lines + [Unstuff(line.value)];
        var text := line.value;
        if |text| >= 2 && text[0] == '.' && text[1] == '.' {
          text := text[1..];
        }
        built := built + text;
        built := built + CRLF;
      }
    }
  }

  ghost function Prepend(lines: seq<string>, r: Option<Data>): Option<Data> {
    if r.None? then None else Some(Data(lines + r.value.lines, r.value.rest))
  }

  lemma PrependOne(lines: seq<string>, line: string, r: Option<Data>)
    ensures Prepend(lines, Prepend([line], r)) == Prepend(lines + [line], r)
  {
    if r.Some? {
      assert lines + ([line] + r.value.lines) == lines + [line] + r.value.lines;
    }
  }

  lemma PrependNone(lines: seq<string>, rest: string)
    ensures Prepend(lines, Some(Data([], rest))) == Some(Data(lines, rest))
  {
    assert lines + [] == lines;
  }

  lemma {:induction false} JoinAppend(lines: seq<string>, line: string)
    ensures Join(lines + [line]) == Join(lines) + (line + CRLF)
  {
    if lines == [] {
      assert [line][1..] == [] && Join([]) == "";
      assert Join([line]) == line + CRLF + "" == line + CRLF;
      assert [] + [line] == [line];
      assert "" + (line + CRLF) == line + CRLF;
    } else {
      JoinAppend(lines[1..], line);
      assert (lines + [line])[1..] == lines[1..] + [line];
      assert lines[0] + CRLF + (Join(lines[1..]) + (line + CRLF)) == (lines[0] + CRLF + Join(lines[1..])) + (line + CRLF);
    }
  }

  // ---- the sender -------------------------------------------------------

  /** What section 4.5.2 of RFC 5321 has the sender do. */
  function Stuff(line: string): string {
    if line != "" && line[0] == '.' then "." + line else line
  }

  /** The lines dot-stuffed, each with CRLF, and a final line ".". */
  function Encode(lines: seq<string>): string {
    if lines == [] then "." + CRLF else Stuff(lines[0]) + CRLF + Encode(lines[1..])
  }

  predicate Clean(line: string) {
    '\n' !in line && (line != "" ==> line[|line| - 1] != '\r')
  }

  predicate AllClean(lines: seq<string>) {
    forall i :: 0 <= i < |lines| ==> Clean(lines[i])
  }

  lemma {:induction false} FirstLFAfter(s: string, rest: string)
    requires '\n' !in s
    ensures FirstLF(s + "\n" + rest) == |s|
  {
    var all := s + "\n" + rest;
    if s == "" {
      assert all[0] == '\n';
    } else {
      assert all[0] == s[0];
      assert all[1..] == s[1..] + "\n" + rest;
      FirstLFAfter(s[1..], rest);
    }
  }

  /** A clean line sent with CRLF is read back, and no more. */
  lemma ReadsCleanLine(line: string, rest: string)
    requires Clean(line)
    ensures NextLine(line + CRLF + rest) == Some(Line(line, rest))
  {
    var s := line + "\r";
    var all := line + CRLF + rest;
    assert all == s + "\n" + rest;
    FirstLFAfter(s, rest);
    var read := all[..|s| + 1];
    assert read == s + "\n";
    assert read[..|read| - 1] == s && s[..|s| - 1] == line;
    assert TrimRight(read) == TrimRight(s) == TrimRight(line) == line;
    assert all[|s| + 1..] == rest;
  }

  lemma {:induction false} TrimmedIsClean(s: string)
    requires '\n' !in s || exists i :: 0 <= i < |s| && '\n' !in s[..i] && s[i..] == "\n"
    ensures Clean(TrimRight(s))
  {
    if s != "" && LineEnd(s[|s| - 1]) {
      TrimmedIsClean(s[..|s| - 1]);
    }
  }

  lemma NextLineIsClean(input: string)
    requires NextLine(input).Some?
    ensures Clean(NextLine(input).value.text)
  {
    var i := FirstLF(input);
    var s := input[..i + 1];
    assert s[..i] == input[..i] && s[i..] == "\n";
    TrimmedIsClean(s);
  }

  /** Whatever is sent, the lines rebuilt contain no LF and do not end in CR. */
  lemma {:induction false} DataIsClean(input: string)
    requires ReadData(input).Some?
    ensures AllClean(ReadData(input).value.lines)
    decreases |input|
  {
    NextLineIsClean(input);
    var next := NextLine(input).value;
    if next.text != "." {
      DataIsClean(next.rest);
    }
  }

  // ---- main results -----------------------------------------------------

  lemma StuffedLine(line: string)
    requires Clean(line)
    ensures Clean(Stuff(line)) && Stuff(line) != "." && Unstuff(Stuff(line)) == line
  {
  }

  lemma ReadsDataLine(line: string, tail: string)
    requires Clean(line) && line != "."
    ensures ReadData(line + CRLF + tail) == Prepend([Unstuff(line)], ReadData(tail))
  {
    ReadsCleanLine(line, tail);
  }

  lemma EncodeStep(lines: seq<string>, rest: string)
    requires lines != []
    ensures Encode(lines) + rest == Stuff(lines[0]) + CRLF + (Encode(lines[1..]) + rest)
  {
    Regroup(Stuff(lines[0]), CRLF, Encode(lines[1..]), rest);
  }

  lemma Regroup<T>(a: seq<T>, b: seq<T>, c: seq<T>, d: seq<T>)
    ensures a + b + c + d == a + b + (c + d)
  {
  }

  lemma RoundTripLine(line: string, lines: seq<string>, tail: string, rest: string)
    requires Clean(line) && ReadData(tail) == Some(Data(lines, rest))
    ensures ReadData(Stuff(line) + CRLF + tail) == Some(Data([line] + lines, rest))
  {
    StuffedLine(line);
    ReadsDataLine(Stuff(line), tail);
  }

  lemma {:induction false} RoundTrip(lines: seq<string>, rest: string)
    requires AllClean(lines)
    ensures ReadData(Encode(lines) + rest) == Some(Data(lines, rest))
  {
    if lines == [] {
      ReadsCleanLine(".", rest);
    } else {
      RoundTrip(lines[1..], rest);
      RoundTripLine(lines[0], lines[1..], Encode(lines[1..]) + rest, rest);
      EncodeStep(lines, rest);
      assert [lines[0]] + lines[1..] == lines;
    }
  }

  /** Transparency: the data loop rebuilds exactly the lines that were sent, and
      leaves the following input untouched, exactly when no line contains a line
      feed or ends in a carriage return. */
  lemma RoundTripIff(lines: seq<string>, rest: string)
    ensures ReadData(Encode(lines) + rest) == Some(Data(lines, rest)) <==> AllClean(lines)
  {
    if AllClean(lines) {
      RoundTrip(lines, rest);
    }
    if ReadData(Encode(lines) + rest) == Some(Data(lines, rest)) {
      DataIsClean(Encode(lines) + rest);
    }
  }

  // ---- the receiver of the RFC ------------------------------------------

  /** Where the first CRLF starts, or the length when there is none. */
  function FirstCRLF(s: string): (i: nat)
    ensures i <= |s|
    ensures i < |s| ==> i + 2 <= |s| && s[i..i + 2] == CRLF
  {
    if |s| < 2 then |s|
    else if s[..2] == CRLF then 0
    else
      var i := FirstCRLF(s[1..]);
      assert i < |s[1..]| ==> s[1..][i..i + 2] == s[i + 1..i + 3];
      1 + i
  }

  /** Lines end at CRLF and nowhere else, section 2.3.8 of RFC 5321. */
  function RfcNextLine(input: string): (r: Option<Line>)
    ensures r.Some? ==> input == r.value.text + CRLF + r.value.rest
  {
    var i := FirstCRLF(input);
    if i == |input| then None
    else
      assert input == input[..i] + input[i..i + 2] + input[i + 2..];
      Some(Line(input[..i], input[i + 2..]))
  }

  /** The lines as the RFC reads them, up to the one that is just ".". */
  function RfcData(input: string): Option<Data>
    decreases |input|
  {
    match RfcNextLine(input)
    case None => None
    case Some(Line(text, rest)) =>
      if text == "." then Some(Data([], rest))
      else
        match RfcData(rest)
        case None => None
        case Some(Data(lines, rest')) => Some(Data([text] + lines, rest'))
  }

  /** What section 4.5.2 of RFC 5321 has the receiver do with a line that is not
      a single period. */
  function RfcUnstuff(line: string): string {
    if |line| >= 2 && line[0] == '.' then line[1..] else line
  }

  function RfcLines(raw: seq<string>): (lines: seq<string>)
    ensures |lines| == |raw| && forall i :: 0 <= i < |raw| ==> lines[i] == RfcUnstuff(raw[i])
  {
    if raw == [] then [] else [RfcUnstuff(raw[0])] + RfcLines(raw[1..])
  }

  /** A period before something other than a period. */
  predicate LonePeriod(line: string) {
    |line| >= 2 && line[0] == '.' && line[1] != '.'
  }

  lemma UnstuffMatchesRfcIff(line: string)
    ensures Unstuff(line) == RfcUnstuff(line) <==> !LonePeriod(line)
  {
    if LonePeriod(line) {
      assert |RfcUnstuff(line)| < |Unstuff(line)|;
    }
  }

  predicate Plain(line: string) {
    Clean(line) && !LonePeriod(line)
  }

  predicate AllPlain(raw: seq<string>) {
    forall i :: 0 <= i < |raw| ==> Plain(raw[i])
  }

  /** Both receivers, when every line is clean. */
  lemma {:induction false} CleanLinesRead(input: string)
    requires RfcData(input).Some? && AllClean(RfcData(input).value.lines)
    ensures var raw := RfcData(input).value;
      ReadData(input).Some? && ReadData(input).value.rest == raw.rest
      && (ReadData(input).value.lines == RfcLines(raw.lines) <==> AllPlain(raw.lines))
    decreases |input|
  {
    var next := RfcNextLine(input).value;
    if next.text == "." {
      ReadsCleanLine(next.text, next.rest);
    } else {
      var raw := RfcData(input).value.lines;
      var tail := RfcData(next.rest).value.lines;
      assert raw == [next.text] + tail;
      assert Clean(raw[0]) && forall i :: 0 <= i < |tail| ==> tail[i] == raw[i + 1];
      CleanLinesRead(next.rest);
      ReadsDataLine(next.text, next.rest);
      UnstuffMatchesRfcIff(next.text);
      PlainHead(next.text, tail);
      var lines := ReadData(input).value.lines;
      assert lines[1..] == ReadData(next.rest).value.lines;
      assert RfcLines(raw)[1..] == RfcLines(tail);
      assert lines == RfcLines(raw) <==> lines[0] == RfcLines(raw)[0] && lines[1..] == RfcLines(raw)[1..];
    }
  }

  lemma PlainHead(line: string, tail: seq<string>)
    ensures AllPlain([line] + tail) <==> Plain(line) && AllPlain(tail)
  {
    var raw := [line] + tail;
    assert raw[0] == line && forall i :: 0 <= i < |tail| ==> tail[i] == raw[i + 1];
  }

  lemma UnstuffedClean(line: string)
    requires Clean(RfcUnstuff(line))
    ensures Clean(line)
  {
    if |line| >= 2 && line[0] == '.' {
      assert line == [line[0]] + line[1..];
    }
  }

  /** Whatever arrives, and the RFC's receiver completes: the server rebuilds the
      same message and leaves the same input exactly when no line contains a bare
      line feed, ends in a carriage return or starts with a lone period. */
  lemma ReadsLikeRfcIff(input: string)
    requires RfcData(input).Some?
    ensures var raw := RfcData(input).value;
      ReadData(input) == Some(Data(RfcLines(raw.lines), raw.rest)) <==> AllPlain(raw.lines)
  {
    var raw := RfcData(input).value;
    if ReadData(input) == Some(Data(RfcLines(raw.lines), raw.rest)) {
      DataIsClean(input);
      forall i | 0 <= i < |raw.lines|
        ensures Clean(raw.lines[i])
      {
        assert Clean(RfcLines(raw.lines)[i]);
        UnstuffedClean(raw.lines[i]);
      }
      CleanLinesRead(input);
    }
    if AllPlain(raw.lines) {
      assert forall i :: 0 <= i < |raw.lines| ==> Plain(raw.lines[i]);
      CleanLinesRead(input);
    }
  }

  predicate NoCRLF(s: string) {
    forall i :: 0 <= i < |s| - 1 ==> !(s[i] == '\r' && s[i + 1] == '\n')
  }

  lemma {:induction false} FirstCRLFAfter(s: string, rest: string)
    requires NoCRLF(s) && (s != "" ==> s[|s| - 1] != '\r')
    ensures FirstCRLF(s + CRLF + rest) == |s|
  {
    var all := s + CRLF + rest;
    if s == "" {
      assert all[..2] == CRLF;
    } else {
      assert all[1..] == s[1..] + CRLF + rest;
      FirstCRLFAfter(s[1..], rest);
      assert all[0] == s[0] && all[1] == (if |s| > 1 then s[1] else '\r');
      assert all[..2] != CRLF by {
        assert all[..2][0] == all[0] && all[..2][1] == all[1];
      }
    }
  }

  /** The server takes a bare line feed for the end of a line. */
  lemma ReadsBareLine(line: string, rest: string)
    requires Clean(line)
    ensures NextLine(line + "\n" + rest) == Some(Line(line, rest))
  {
    var all := line + "\n" + rest;
    FirstLFAfter(line, rest);
    var read := all[..|line| + 1];
    assert read == line + "\n" && read[..|read| - 1] == line;
    assert TrimRight(read) == TrimRight(line) == line;
    assert all[|line| + 1..] == rest;
  }

  lemma RfcReadsOn(line: string, rest: string)
    requires NoCRLF(line) && (line != "" ==> line[|line| - 1] != '\r') && line != "."
    ensures RfcData(line + CRLF + rest) == Prepend([line], RfcData(rest))
  {
    var all := line + CRLF + rest;
    FirstCRLFAfter(line, rest);
    assert all[..|line|] == line && all[|line| + 2..] == rest;
  }

  lemma EndReads(rest: string)
    ensures ReadData("." + CRLF + rest) == Some(Data([], rest))
  {
    ReadsCleanLine(".", rest);
  }

  lemma ServerStops(first: string, tail: string, rest: string)
    requires Clean(first) && first != "." && ReadData(tail) == Some(Data([], rest))
    ensures ReadData(first + "\n" + tail) == Some(Data([Unstuff(first)], rest))
  {
    ReadsBareLine(first, tail);
    assert [Unstuff(first)] + [] == [Unstuff(first)];
  }

  lemma RfcReadsBareLine(first: string, line: string, rest: string)
    requires Clean(first) && line == first + "\n."
    ensures RfcData(line + CRLF + rest) == Prepend([line], RfcData(rest))
  {
    assert line[|line| - 1] == '.' && line[|first|] == '\n';
    RfcReadsOn(line, rest);
  }

  /** A bare line feed and a period within a line: the server ends the message
      there and reads what follows as commands, where the RFC's receiver reads on. */
  lemma BareLineFeedEndsMessage(first: string, rest: string)
    requires Clean(first) && first != "."
    ensures ReadData(first + "\n." + CRLF + rest) == Some(Data([Unstuff(first)], rest))
    ensures RfcData(first + "\n." + CRLF + rest) == Prepend([first + "\n."], RfcData(rest))
  {
    var tail := "." + CRLF + rest;
    assert first + "\n." + CRLF + rest == first + "\n" + tail;
    EndReads(rest);
    ServerStops(first, tail, rest);
    RfcReadsBareLine(first, first + "\n.", rest);
  }
}
