/**
  One connection of the inbound mail server (internal/gateway/email.go): the
  commands, the envelope they build, and what is handed to delivery.  Letters
  and white space are ASCII.
*/
module SmtpSession {
  import opened SmtpData
  import opened Wrappers

  // ---- text -------------------------------------------------------------

  function UpperChar(c: char): char {
    if 'a' <= c <= 'z' then c - 32 as char else c
  }

  function LowerChar(c: char): char {
    if 'A' <= c <= 'Z' then c + 32 as char else c
  }

  function Upper(s: string): (r: string)
    ensures |r| == |s|
  {
    seq(|s|, i requires 0 <= i < |s| => UpperChar(s[i]))
  }

  function Lower(s: string): (r: string)
    ensures |r| == |s|
  {
    seq(|s|, i requires 0 <= i < |s| => LowerChar(s[i]))
  }

  predicate Space(c: char) {
    c == ' ' || c == '\t' || c == '\n' || c == '\r' || c as int == 11 || c as int == 12
  }

  function TrimSpace(s: string): (r: string)
    ensures r == "" || (!Space(r[0]) && !Space(r[|r| - 1]))
  {
    if s == "" then ""
    else if Space(s[0]) then TrimSpace(s[1..])
    else if Space(s[|s| - 1]) then TrimSpace(s[..|s| - 1])
    else s
  }

  predicate HasPrefix(s: string, p: string) {
    |p| <= |s| && s[..|p|] == p
  }

  predicate HasSuffix(s: string, p: string) {
    |p| <= |s| && s[|s| - |p|..] == p
  }

  /** The position of the first `c`, or the length when there is none. */
  function FirstOf(s: string, c: char): (i: nat)
    ensures i <= |s| && c !in s[..i]
    ensures i < |s| ==> s[i] == c
  {
    if s == "" || s[0] == c then 0 else 1 + FirstOf(s[1..], c)
  }

  // ---- parsing ----------------------------------------------------------

  /** The upper-case command and its argument. */
  function ParseCommand(line: string): (string, string) {
    var s := TrimSpace(line);
    var i := FirstOf(s, ' ');
    (Upper(s[..i]), if i < |s| then s[i + 1..] else "")
  }

  function AngleAddr(s: string): string {
    var t := TrimSpace(s);
    TrimSpace(if HasPrefix(t, "<") && HasSuffix(t, ">") then t[1..|t| - 1] else t)
  }

  /** The VM named by an address, if the server accepts mail for it. */
  function VMFromAddress(domain: string, addr: string): Option<string> {
    var i := FirstOf(addr, '@');
    if i == |addr| then None
    else
      var host := Lower(addr[i + 1..]);
      var suffix := Suffix(domain);
      if !HasSuffix(host, suffix) then None
      else
        var vm := host[..|host| - |suffix|];
        if vm == "" || '.' in vm then None else Some(vm)
  }

  /** Text that starts and ends with something other than white space. */
  predicate Tight(s: string) {
    s != "" && !Space(s[0]) && !Space(s[|s| - 1])
  }

  /** A command word, one space and an argument are told apart at the space. */
  lemma ParsesCommandLine(cmd: string, arg: string)
    requires Tight(cmd) && ' ' !in cmd && Tight(arg)
    ensures ParseCommand(cmd + [' '] + arg) == (Upper(cmd), arg)
  {
    var line := cmd + [' '] + arg;
    assert line[0] == cmd[0] && line[|line| - 1] == arg[|arg| - 1];
    assert TrimSpace(line) == line;
    FirstIsFirst(cmd, ' ', arg);
    assert line[..|cmd|] == cmd && line[|cmd| + 1..] == arg;
  }

  /** An address is the same in angle brackets and without them. */
  lemma AngleBracketsOptional(addr: string)
    requires addr == "" || (Tight(addr) && addr[0] != '<')
    ensures AngleAddr("<" + addr + ">") == addr == AngleAddr(addr)
  {
    var s := "<" + addr + ">";
    assert s[0] == '<' && s[|s| - 1] == '>';
    assert TrimSpace(s) == s;
    assert HasPrefix(s, "<") && HasSuffix(s, ">");
    assert s[1..|s| - 1] == addr;
    if addr != "" {
      assert addr[..1][0] != '<';
    }
  }

  function Suffix(domain: string): string {
    "." + Lower(domain)
  }

  predicate HostNames(host: string, domain: string, vm: string) {
    Lower(host) == vm + "." + Lower(domain) && vm != "" && '.' !in vm
  }

  /** Accepted exactly: something, the first "@", and then, in any case of
      letters, the VM name without dots, a dot and the server's domain. */
  ghost predicate Addresses(domain: string, addr: string, vm: string) {
    exists local, host :: addr == local + ['@'] + host && '@' !in local && HostNames(host, domain, vm)
  }

  lemma HostNamesIff(host: string, domain: string, vm: string)
    ensures HostNames(host, domain, vm) <==>
      HasSuffix(Lower(host), Suffix(domain)) && vm == Lower(host)[..|host| - |Suffix(domain)|] && vm != "" && '.' !in vm
  {
    var h, suffix := Lower(host), Suffix(domain);
    assert vm + "." + Lower(domain) == vm + suffix;
    if h == vm + suffix {
      assert h[|h| - |suffix|..] == suffix && h[..|h| - |suffix|] == vm;
    }
    if HasSuffix(h, suffix) {
      assert h == h[..|h| - |suffix|] + suffix;
    }
  }

  lemma VMFromAddressIff(domain: string, addr: string, vm: string)
    ensures VMFromAddress(domain, addr) == Some(vm) <==> Addresses(domain, addr, vm)
  {
    var i := FirstOf(addr, '@');
    if VMFromAddress(domain, addr) == Some(vm) {
      HostNamesIff(addr[i + 1..], domain, vm);
      assert addr == addr[..i] + ['@'] + addr[i + 1..];
    }
    if Addresses(domain, addr, vm) {
      var local, host :| addr == local + ['@'] + host && '@' !in local && HostNames(host, domain, vm);
      FirstIsFirst(local, '@', host);
      assert addr[i + 1..] == host;
      HostNamesIff(host, domain, vm);
    }
  }

  lemma {:induction false} FirstIsFirst(before: string, c: char, after: string)
    requires c !in before
    ensures FirstOf(before + [c] + after, c) == |before|
  {
    if before != "" {
      assert (before + [c] + after)[1..] == before[1..] + [c] + after;
      FirstIsFirst(before[1..], c, after);
    }
  }

  // ---- the envelope -----------------------------------------------------

  datatype Envelope = Envelope(from: string, rcpts: seq<string>, vm: string)

  const NO_ENVELOPE := Envelope("", [], "")

  datatype Delivery = Delivery(envelope: Envelope, body: string)

  predicate MailAccepted(arg: string) {
    HasPrefix(Upper(arg), "FROM:")
  }

  function AfterMail(e: Envelope, arg: string): Envelope {
    if MailAccepted(arg) then Envelope(AngleAddr(arg[5..]), [], "") else e
  }

  /** The argument of a RCPT command names an address the server accepts. */
  predicate RcptNamed(domain: string, arg: string) {
    HasPrefix(Upper(arg), "TO:") && AngleAddr(arg[3..]) != "" && VMFromAddress(domain, AngleAddr(arg[3..])).Some?
  }

  predicate RcptAccepted(domain: string, e: Envelope, arg: string) {
    e.from != "" && RcptNamed(domain, arg)
  }

  function AfterRcpt(domain: string, e: Envelope, arg: string): Envelope {
    if RcptAccepted(domain, e, arg) then
      var addr := AngleAddr(arg[3..]);
      Envelope(e.from, e.rcpts + [addr], if e.vm == "" then VMFromAddress(domain, addr).value else e.vm)
    else e
  }

  /** Any command other than DATA and QUIT; HELO, EHLO, NOOP and unknown ones
      leave the envelope alone. */
  function AfterCommand(domain: string, e: Envelope, cmd: string, arg: string): Envelope {
    if cmd == "MAIL" then AfterMail(e, arg)
    else if cmd == "RCPT" then AfterRcpt(domain, e, arg)
    else if cmd == "RSET" then NO_ENVELOPE
    else e
  }

  /** What a connection hands to delivery, from the bytes it receives. */
  function Converse(domain: string, e: Envelope, input: string): seq<Delivery>
    decreases |input|
  {
    match NextLine(input)
    case None => []
    case Some(Line(text, rest)) =>
      var (cmd, arg) := ParseCommand(text);
      if cmd == "QUIT" then []
      else if cmd == "DATA" then
        if e.rcpts == [] then Converse(domain, e, rest)
        else
          match ReadData(rest)
          case None => []
          case Some(Data(lines, rest')) => [Delivery(e, Join(lines))] + Converse(domain, e, rest')
      else Converse(domain, AfterCommand(domain, e, cmd, arg), rest)
  }

  class Session {
    const domain: string
    const reader: Reader
    var mailFrom: string
    var rcptTo: seq<string>
    var vmName: string
    /** Messages handed to deliverToMaildir, in order. */
    var handedOver: seq<Delivery>

    function State(): Envelope
      reads this
    {
      Envelope(mailFrom, rcptTo, vmName)
    }

    constructor (domain: string, reader: Reader)
      ensures this.domain == domain && this.reader == reader
      ensures State() == NO_ENVELOPE && handedOver == []
    {
      this.domain := domain;
      this.reader := reader;
      mailFrom := "";
      rcptTo := [];
      vmName := "";
      handedOver := [];
    }

    /** Each handler returns its reply code. */
    method handleMAIL(arg: string) returns (code: int)
      modifies this`mailFrom, this`rcptTo, this`vmName
      ensures State() == AfterMail(old(State()), arg)
      ensures code == if MailAccepted(arg) then 250 else 501
    {
      if !HasPrefix(Upper(arg), "FROM:") {
        return 501;
      }
      mailFrom := AngleAddr(arg[5..]);
      rcptTo := [];
      vmName := "";
      return 250;
    }

    method handleRCPT(arg: string) returns (code: int)
      modifies this`rcptTo, this`vmName
      ensures State() == AfterRcpt(domain, old(State()), arg)
      ensures code == 250 <==> RcptAccepted(domain, old(State()), arg)
      ensures code == 503 <==> old(mailFrom) == ""
      ensures (code == 550) == (old(mailFrom) != "" && HasPrefix(Upper(arg), "TO:") && AngleAddr(arg[3..]) != ""
                                && !Named(domain, AngleAddr(arg[3..])))
      ensures code in {250, 501, 503, 550}
    {
      if mailFrom == "" {
        return 503;
      }
      if !HasPrefix(Upper(arg), "TO:") {
        return 501;
      }
      var addr := AngleAddr(arg[3..]);
      if addr == "" {
        return 501;
      }
      var vm := VMFromAddress(domain, addr);
      NamedIff(domain, addr);
      if vm == None {
        return 550;
      }
      if vmName == "" {
        vmName := vm.value;
      }
      rcptTo := rcptTo + [addr];
      return 250;
    }

    /** The envelope is kept, whatever becomes of the message. */
    method handleDATA()
      modifies this`handedOver, reader
      ensures State() == old(State())
      ensures if rcptTo == [] then reader.pending == old(reader.pending) && handedOver == old(handedOver)
        else match ReadData(old(reader.pending))
          case None => reader.pending == "" && handedOver == old(handedOver)
          case Some(Data(lines, rest)) =>
            reader.pending == rest && handedOver == old(handedOver) + [Delivery(State(), Join(lines))]
    {
      if |rcptTo| == 0 {
        return;
      }
      var body := reader.readBody();
      if body == None {
        return;
      }
      handedOver := handedOver + [Delivery(Envelope(mailFrom, rcptTo, vmName), body.value)];
    }

    method handleRSET()
      modifies this`mailFrom, this`rcptTo, this`vmName
      ensures State() == NO_ENVELOPE
    {
      mailFrom := "";
      rcptTo := [];
      vmName := "";
    }

    /** One turn of the loop of handleConn; false when the connection ends. */
    method turn() returns (more: bool)
      modifies this, reader
      ensures more ==> |reader.pending| < |old(reader.pending)|
      ensures handedOver + (if more then Converse(domain, State(), reader.pending) else [])
        == old(handedOver) + Converse(domain, old(State()), old(reader.pending))
    {
      var line := reader.readLine();
      if line == None {
        return false;
      }
      var (cmd, arg) := ParseCommand(line.value);
      if cmd == "MAIL" {
        var code := handleMAIL(arg);
      } else if cmd == "RCPT" {
        var code := handleRCPT(arg);
      } else if cmd == "DATA" {
        handleDATA();
      } else if cmd == "RSET" {
        handleRSET();
      } else if cmd == "QUIT" {
        return false;
      }
      return true;
    }

    method handleConn()
      modifies this, reader
      ensures handedOver == old(handedOver) + Converse(domain, old(State()), old(reader.pending))
    {
      ghost var whole := handedOver + Converse(domain, State(), reader.pending);
      var more := true;
      while more
        invariant whole == handedOver + (if more then Converse(domain, State(), reader.pending) else [])
        decreases more, |reader.pending|
      {
        more := turn();
      }
    }
  }

  // ---- whole conversations ----------------------------------------------

  /** What a client that waits for replies does: a command line, or the DATA
      command followed, once the server asks for it, by an encoded message. */
  datatype Action = Say(line: string) | Send(lines: seq<string>)

  predicate CleanAction(a: Action) {
    match a
    case Say(line) => Clean(line) && ParseCommand(line).0 != "DATA" && ParseCommand(line).0 != "QUIT"
    case Send(lines) => AllClean(lines)
  }

  predicate CleanScript(script: seq<Action>) {
    forall i :: 0 <= i < |script| ==> CleanAction(script[i])
  }

  function After(domain: string, e: Envelope, a: Action): Envelope {
    match a
    case Say(line) => AfterCommand(domain, e, ParseCommand(line).0, ParseCommand(line).1)
    case Send(_) => e
  }

  function AfterAll(domain: string, e: Envelope, script: seq<Action>): Envelope
    decreases |script|
  {
    if script == [] then e else AfterAll(domain, After(domain, e, script[0]), script[1..])
  }

  /** The bytes of one action, given the envelope the server has by then. */
  function Bytes(e: Envelope, a: Action): string {
    match a
    case Say(line) => line + CRLF
    case Send(lines) => "DATA" + CRLF + (if e.rcpts == [] then "" else Encode(lines))
  }

  function Transcript(domain: string, e: Envelope, script: seq<Action>): string
    decreases |script|
  {
    if script == [] then ""
    else Bytes(e, script[0]) + Transcript(domain, After(domain, e, script[0]), script[1..])
  }

  function IntendedBy(e: Envelope, a: Action): seq<Delivery> {
    if a.Send? && e.rcpts != [] then [Delivery(e, Join(a.lines))] else []
  }

  /** The messages the client means to deliver, each with its envelope. */
  function Intended(domain: string, e: Envelope, script: seq<Action>): seq<Delivery>
    decreases |script|
  {
    if script == [] then []
    else IntendedBy(e, script[0]) + Intended(domain, After(domain, e, script[0]), script[1..])
  }

  lemma DataCommand()
    ensures ParseCommand("DATA").0 == "DATA" && Clean("DATA")
  {
    var s := "DATA";
    assert TrimSpace(s) == s;
    FirstIsAbsent(s, ' ');
    assert s[..4] == s;
    assert Upper(s) == s;
  }

  lemma {:induction false} FirstIsAbsent(s: string, c: char)
    requires c !in s
    ensures FirstOf(s, c) == |s|
  {
    if s != "" {
      FirstIsAbsent(s[1..], c);
    }
  }

  lemma ConverseAction(domain: string, e: Envelope, a: Action, rest: string)
    requires CleanAction(a)
    ensures Converse(domain, e, Bytes(e, a) + rest) == IntendedBy(e, a) + Converse(domain, After(domain, e, a), rest)
  {
    if a.Say? {
      ReadsCleanLine(a.line, rest);
    } else {
      DataCommand();
      if e.rcpts == [] {
        assert "DATA" + CRLF + "" + rest == "DATA" + CRLF + rest;
        ReadsCleanLine("DATA", rest);
      } else {
        Regroup("DATA", CRLF, Encode(a.lines), rest);
        ReadsCleanLine("DATA", Encode(a.lines) + rest);
        RoundTrip(a.lines, rest);
      }
    }
  }

  /** From bytes to messages: whatever a client sends, the server hands over
      exactly the intended messages, with the envelopes of their commands. */
  lemma {:induction false} ConversationFaithful(domain: string, e: Envelope, script: seq<Action>)
    requires CleanScript(script)
    ensures Converse(domain, e, Transcript(domain, e, script)) == Intended(domain, e, script)
    decreases |script|
  {
    if script != [] {
      var next := After(domain, e, script[0]);
      ConversationFaithful(domain, next, script[1..]);
      ConverseAction(domain, e, script[0], Transcript(domain, next, script[1..]));
    }
  }

  // ---- what the envelope holds ------------------------------------------

  /** The recipients are all accepted, there is a sender when there are any, and
      the VM is that of the first. */
  predicate Consistent(domain: string, e: Envelope) {
    && (forall i :: 0 <= i < |e.rcpts| ==> VMFromAddress(domain, e.rcpts[i]).Some?)
    && (e.rcpts == [] ==> e.vm == "")
    && (e.rcpts != [] ==> e.from != "" && VMFromAddress(domain, e.rcpts[0]) == Some(e.vm))
  }

  predicate ResetsEnvelope(a: Action) {
    a.Say? && var (cmd, arg) := ParseCommand(a.line); cmd == "RSET" || (cmd == "MAIL" && MailAccepted(arg))
  }

  predicate NoReset(script: seq<Action>) {
    forall i :: 0 <= i < |script| ==> !ResetsEnvelope(script[i])
  }

  /** The address an action adds when there is a sender. */
  function AddrOf(domain: string, a: Action): seq<string> {
    match a
    case Send(_) => []
    case Say(line) =>
      var (cmd, arg) := ParseCommand(line);
      if cmd == "RCPT" && RcptNamed(domain, arg) then [AngleAddr(arg[3..])] else []
  }

  function AddrsOf(domain: string, script: seq<Action>): seq<string> {
    if script == [] then [] else AddrOf(domain, script[0]) + AddrsOf(domain, script[1..])
  }

  /** `r` is `e` with the addresses `more` added, if there is a sender. */
  predicate Grown(domain: string, e: Envelope, r: Envelope, more: seq<string>) {
    && Consistent(domain, r) && r.from == e.from
    && r.rcpts == if e.from == "" then e.rcpts else e.rcpts + more
  }

  lemma RcptGrows(domain: string, e: Envelope, arg: string)
    requires Consistent(domain, e)
    ensures Grown(domain, e, AfterRcpt(domain, e, arg), if RcptNamed(domain, arg) then [AngleAddr(arg[3..])] else [])
  {
  }

  lemma GrowsByOne(domain: string, e: Envelope, a: Action)
    requires Consistent(domain, e) && !ResetsEnvelope(a)
    ensures Grown(domain, e, After(domain, e, a), AddrOf(domain, a))
  {
    assert e.rcpts + [] == e.rcpts;
    if a.Say? {
      var (cmd, arg) := ParseCommand(a.line);
      if cmd == "RCPT" {
        RcptGrows(domain, e, arg);
      }
    }
  }

  lemma GrowsOn(domain: string, e: Envelope, next: Envelope, r: Envelope, one: seq<string>, more: seq<string>)
    requires Grown(domain, e, next, one) && Grown(domain, next, r, more)
    ensures Grown(domain, e, r, one + more)
  {
    assert (e.rcpts + one) + more == e.rcpts + (one + more);
  }

  lemma {:induction false} EnvelopeGrows(domain: string, e: Envelope, script: seq<Action>)
    requires Consistent(domain, e) && NoReset(script)
    ensures Grown(domain, e, AfterAll(domain, e, script), AddrsOf(domain, script))
    decreases |script|
  {
    if script == [] {
      assert e.rcpts + [] == e.rcpts;
    } else {
      var next := After(domain, e, script[0]);
      GrowsByOne(domain, e, script[0]);
      EnvelopeGrows(domain, next, script[1..]);
      GrowsOn(domain, e, next, AfterAll(domain, next, script[1..]), AddrOf(domain, script[0]), AddrsOf(domain, script[1..]));
    }
  }

  lemma {:induction false} AfterAppend(domain: string, e: Envelope, first: seq<Action>, second: seq<Action>)
    ensures AfterAll(domain, e, first + second) == AfterAll(domain, AfterAll(domain, e, first), second)
    decreases |first|
  {
    if first == [] {
      assert first + second == second;
    } else {
      assert (first + second)[1..] == first[1..] + second;
      AfterAppend(domain, After(domain, e, first[0]), first[1..], second);
    }
  }

  /** Since the last accepted MAIL the envelope is its address and, unless that is
      empty, the recipients accepted after it; nothing before it matters, and
      messages sent in between change nothing. */
  lemma EnvelopeSinceMail(domain: string, e: Envelope, pre: seq<Action>, mail: string, post: seq<Action>)
    requires var (cmd, arg) := ParseCommand(mail); cmd == "MAIL" && MailAccepted(arg)
    requires NoReset(post)
    ensures var r := AfterAll(domain, e, pre + ([Say(mail)] + post));
      && r.from == AngleAddr(ParseCommand(mail).1[5..])
      && r.rcpts == (if r.from == "" then [] else AddrsOf(domain, post))
      && Consistent(domain, r)
  {
    AfterAppend(domain, e, pre, [Say(mail)] + post);
    var before := AfterAll(domain, e, pre);
    assert ([Say(mail)] + post)[1..] == post;
    var renewed := After(domain, before, Say(mail));
    EnvelopeGrows(domain, renewed, post);
    assert [] + AddrsOf(domain, post) == AddrsOf(domain, post);
  }

  /** Every message of every conversation is handed over with a sender, with
      accepted recipients, and to the VM of the first of them. */
  lemma {:induction false} DeliveriesConsistent(domain: string, e: Envelope, input: string)
    requires Consistent(domain, e)
    ensures forall d :: d in Converse(domain, e, input) ==>
      d.envelope.from != "" && d.envelope.rcpts != [] && Consistent(domain, d.envelope)
    decreases |input|
  {
    if NextLine(input).Some? {
      var Line(text, rest) := NextLine(input).value;
      var (cmd, arg) := ParseCommand(text);
      if cmd == "QUIT" {
      } else if cmd == "DATA" {
        if e.rcpts == [] {
          DeliveriesConsistent(domain, e, rest);
        } else if ReadData(rest).Some? {
          DeliveriesConsistent(domain, e, ReadData(rest).value.rest);
        }
      } else {
        DeliveriesConsistent(domain, AfterCommand(domain, e, cmd, arg), rest);
      }
    }
  }

  /** After a null reverse-path no message is handed over until the next MAIL. */
  lemma {:induction false} NullSenderDeliversNothing(domain: string, script: seq<Action>)
    requires forall i :: 0 <= i < |script| ==> script[i].Say? ==> ParseCommand(script[i].line).0 != "MAIL"
    ensures Intended(domain, NO_ENVELOPE, script) == []
    decreases |script|
  {
    if script != [] {
      assert After(domain, NO_ENVELOPE, script[0]) == NO_ENVELOPE;
      NullSenderDeliversNothing(domain, script[1..]);
    }
  }

  // ---- letters and white space ------------------------------------------

  const CAPITALS := "ABCDEFGHIJKLMNOPQRSTUVWXYZ"
  const SMALLS := "abcdefghijklmnopqrstuvwxyz"

  lemma Alphabet(k: int)
    requires 0 <= k < 26
    ensures |CAPITALS| == |SMALLS| == 26
    ensures CAPITALS[k] as int == 'A' as int + k && SMALLS[k] as int == 'a' as int + k
  {
  }

  /** The two cases of a letter are exchanged as in the alphabet, and every other
      character is left alone. */
  lemma CasesByAlphabet(c: char)
    ensures |CAPITALS| == |SMALLS| == 26
    ensures forall k :: 0 <= k < 26 ==> UpperChar(SMALLS[k]) == CAPITALS[k] && LowerChar(CAPITALS[k]) == SMALLS[k]
    ensures c !in SMALLS ==> UpperChar(c) == c
    ensures c !in CAPITALS ==> LowerChar(c) == c
  {
    forall k | 0 <= k < 26
      ensures UpperChar(SMALLS[k]) == CAPITALS[k] && LowerChar(CAPITALS[k]) == SMALLS[k]
    {
      Alphabet(k);
    }
    if 'a' <= c <= 'z' {
      Alphabet(c as int - 'a' as int);
      assert SMALLS[c as int - 'a' as int] == c;
    }
    if 'A' <= c <= 'Z' {
      Alphabet(c as int - 'A' as int);
      assert CAPITALS[c as int - 'A' as int] == c;
    }
  }

  /** The character, or the small letter of that capital. */
  predicate SameLetter(c: char, capital: char) {
    c == capital || exists k :: 0 <= k < |CAPITALS| == |SMALLS| && CAPITALS[k] == capital && SMALLS[k] == c
  }

  /** The word in any mixture of cases. */
  predicate AnyCase(word: string, capitals: string) {
    |word| == |capitals| && forall i :: 0 <= i < |word| ==> SameLetter(word[i], capitals[i])
  }

  lemma SameLetterIff(c: char, capital: char)
    requires !('a' <= capital <= 'z')
    ensures SameLetter(c, capital) <==> UpperChar(c) == capital
  {
    CasesByAlphabet(c);
    if c in SMALLS {
      var k :| 0 <= k < |SMALLS| && SMALLS[k] == c;
      Alphabet(k);
    }
    if SameLetter(c, capital) && c != capital {
      var k :| 0 <= k < |CAPITALS| == |SMALLS| && CAPITALS[k] == capital && SMALLS[k] == c;
      Alphabet(k);
    }
  }

  predicate NoSmalls(s: string) {
    forall i :: 0 <= i < |s| ==> !('a' <= s[i] <= 'z')
  }

  lemma AnyCaseIff(word: string, capitals: string)
    requires NoSmalls(capitals)
    ensures AnyCase(word, capitals) <==> Upper(word) == capitals
  {
    forall i | 0 <= i < |word| == |capitals|
      ensures SameLetter(word[i], capitals[i]) <==> Upper(word)[i] == capitals[i]
    {
      SameLetterIff(word[i], capitals[i]);
    }
  }

  predicate Spaces(s: string) {
    forall i :: 0 <= i < |s| ==> Space(s[i])
  }

  lemma {:induction false} AllSpaces(s: string)
    requires Spaces(s)
    ensures TrimSpace(s) == ""
    decreases |s|
  {
    if s != "" {
      AllSpaces(s[1..]);
    }
  }

  lemma {:induction false} TrimsFront(before: string, s: string)
    requires Spaces(before)
    ensures TrimSpace(before + s) == TrimSpace(s)
  {
    if before == "" {
      assert before + s == s;
    } else {
      var t := before + s;
      assert t[0] == before[0] && t[1..] == before[1..] + s;
      TrimsFront(before[1..], s);
    }
  }

  lemma {:induction false} TrimsBack(core: string, after: string)
    requires Spaces(after) && Tight(core)
    ensures TrimSpace(core + after) == core
    decreases |after|
  {
    var t := core + after;
    if after == "" {
      assert t == core;
    } else {
      assert t[0] == core[0] && t[|t| - 1] == after[|after| - 1];
      assert t[..|t| - 1] == core + after[..|after| - 1];
      TrimsBack(core, after[..|after| - 1]);
    }
  }

  /** White space goes at both ends, and nothing else does. */
  lemma TrimsToCore(before: string, core: string, after: string)
    requires Spaces(before) && Spaces(after) && (core == "" || Tight(core))
    ensures TrimSpace(before + core + after) == core
  {
    if core == "" {
      AllSpaces(before + core + after);
    } else {
      assert before + core + after == before + (core + after);
      TrimsFront(before, core + after);
      TrimsBack(core, after);
    }
  }

  lemma TightIsTrimmed(s: string)
    requires s == "" || Tight(s)
    ensures TrimSpace(s) == s
  {
  }

  /** A line that is one word is a command without an argument. */
  lemma ParsesBareWord(cmd: string)
    requires Tight(cmd) && ' ' !in cmd
    ensures ParseCommand(cmd) == (Upper(cmd), "")
  {
    TightIsTrimmed(cmd);
    FirstIsAbsent(cmd, ' ');
    assert cmd[..|cmd|] == cmd;
  }

  lemma Bracketed(addr: string)
    requires addr == "" || Tight(addr)
    ensures AngleAddr("<" + addr + ">") == addr
  {
    var s := "<" + addr + ">";
    assert s[0] == '<' && s[|s| - 1] == '>';
    TightIsTrimmed(s);
    TightIsTrimmed(addr);
    assert s[1..|s| - 1] == addr;
  }

  // ---- conversations, byte by byte --------------------------------------

  predicate Capitals(s: string) {
    s != "" && forall i :: 0 <= i < |s| ==> 'A' <= s[i] <= 'Z'
  }

  /** A command word in any mixture of cases. */
  lemma CommandWord(word: string, capitals: string)
    requires Capitals(capitals) && AnyCase(word, capitals)
    ensures Upper(word) == capitals && Tight(word) && ' ' !in word && Clean(word)
  {
    AnyCaseIff(word, capitals);
    forall i | 0 <= i < |word|
      ensures word[i] != ' ' && word[i] != '\n' && !Space(word[i])
    {
      assert Upper(word)[i] == UpperChar(word[i]);
    }
  }

  /** An address as it may stand between angle brackets. */
  predicate Mailbox(addr: string) {
    (addr == "" || Tight(addr)) && '\n' !in addr
  }

  function Argument(key: string, addr: string): string {
    key + (":<" + addr + ">")
  }

  /** `MAIL FROM:<sender>` or `RCPT TO:<address>`. */
  function AddressLine(cmd: string, key: string, addr: string): string {
    cmd + [' '] + Argument(key, addr)
  }

  lemma ParsesAddressLine(cmd: string, capitals: string, key: string, keyCapitals: string, addr: string)
    requires Capitals(capitals) && AnyCase(cmd, capitals) && Capitals(keyCapitals) && AnyCase(key, keyCapitals)
    requires Mailbox(addr)
    ensures Clean(AddressLine(cmd, key, addr))
    ensures ParseCommand(AddressLine(cmd, key, addr)) == (capitals, Argument(key, addr))
  {
    CommandWord(cmd, capitals);
    CommandWord(key, keyCapitals);
    var arg := Argument(key, addr);
    assert arg[0] == key[0] && arg[|arg| - 1] == '>' && '\n' !in arg;
    ParsesCommandLine(cmd, arg);
  }

  lemma ArgumentSays(key: string, keyCapitals: string, addr: string)
    requires Capitals(keyCapitals) && AnyCase(key, keyCapitals) && Mailbox(addr)
    ensures HasPrefix(Upper(Argument(key, addr)), keyCapitals + ":")
    ensures AngleAddr(Argument(key, addr)[|keyCapitals| + 1..]) == addr
  {
    KeyInCapitals(key, keyCapitals);
    ArgumentStarts(key, keyCapitals, addr);
    ArgumentNames(key, addr);
  }

  lemma KeyInCapitals(key: string, keyCapitals: string)
    requires Capitals(keyCapitals) && AnyCase(key, keyCapitals)
    ensures Upper(key) == keyCapitals
  {
    CommandWord(key, keyCapitals);
  }

  lemma ArgumentStarts(key: string, keyCapitals: string, addr: string)
    requires Upper(key) == keyCapitals
    ensures HasPrefix(Upper(Argument(key, addr)), keyCapitals + ":")
  {
    var rest := ":<" + addr + ">";
    assert rest[0] == ':';
    KeyOfArgument(key, keyCapitals, rest);
  }

  lemma ArgumentNames(key: string, addr: string)
    requires Mailbox(addr)
    ensures AngleAddr(Argument(key, addr)[|key| + 1..]) == addr
  {
    assert Argument(key, addr)[|key| + 1..] == "<" + addr + ">";
    Bracketed(addr);
  }

  lemma KeyOfArgument(key: string, keyCapitals: string, rest: string)
    requires Upper(key) == keyCapitals && rest != "" && rest[0] == ':'
    ensures HasPrefix(Upper(key + rest), keyCapitals + ":")
  {
    var s := Upper(key + rest);
    assert UpperChar(':') == ':';
    forall i | 0 <= i < |key| + 1
      ensures s[i] == (keyCapitals + ":")[i]
    {
      if i < |key| {
        assert Upper(key)[i] == UpperChar(key[i]);
      }
    }
    assert s[..|key| + 1] == keyCapitals + ":";
  }

  /** A line with any other command than DATA and QUIT. */
  lemma ConverseLine(domain: string, e: Envelope, line: string, rest: string)
    requires Clean(line) && ParseCommand(line).0 != "DATA" && ParseCommand(line).0 != "QUIT"
    ensures Converse(domain, e, line + CRLF + rest)
      == Converse(domain, AfterCommand(domain, e, ParseCommand(line).0, ParseCommand(line).1), rest)
  {
    ReadsCleanLine(line, rest);
  }

  /** Some VM of the server's domain is addressed. */
  ghost predicate Named(domain: string, addr: string) {
    exists vm :: Addresses(domain, addr, vm)
  }

  /** The addresses among these that name a VM. */
  ghost function Kept(domain: string, addrs: seq<string>): seq<string> {
    if addrs == [] then []
    else (if Named(domain, addrs[0]) then [addrs[0]] else []) + Kept(domain, addrs[1..])
  }

  lemma NamedIff(domain: string, addr: string)
    ensures Named(domain, addr) <==> VMFromAddress(domain, addr).Some?
    ensures Named(domain, addr) ==> addr != ""
  {
    if Named(domain, addr) {
      var vm :| Addresses(domain, addr, vm);
      VMFromAddressIff(domain, addr, vm);
      assert addr != "";
    }
    if VMFromAddress(domain, addr).Some? {
      VMFromAddressIff(domain, addr, VMFromAddress(domain, addr).value);
    }
  }

  /** A sender starts a new envelope, whatever the old one held. */
  lemma MailStartsEnvelope(domain: string, e: Envelope, mail: string, from: string, sender: string, rest: string)
    requires AnyCase(mail, "MAIL") && AnyCase(from, "FROM") && Mailbox(sender)
    ensures Converse(domain, e, AddressLine(mail, from, sender) + CRLF + rest)
      == Converse(domain, Envelope(sender, [], ""), rest)
  {
    ParsesAddressLine(mail, "MAIL", from, "FROM", sender);
    ArgumentSays(from, "FROM", sender);
    assert "FROM" + ":" == "FROM:";
    MailAfter(domain, e, Argument(from, sender), sender);
    ConverseLine(domain, e, AddressLine(mail, from, sender), rest);
  }

  lemma MailAfter(domain: string, e: Envelope, arg: string, sender: string)
    requires HasPrefix(Upper(arg), "FROM:") && AngleAddr(arg[5..]) == sender
    ensures AfterCommand(domain, e, "MAIL", arg) == Envelope(sender, [], "")
  {
  }

  /** The VM an address names, if any. */
  ghost function VMOf(domain: string, addr: string): (vm: string)
    ensures Named(domain, addr) ==> Addresses(domain, addr, vm)
  {
    if Named(domain, addr) then
      var vm :| Addresses(domain, addr, vm);
      vm
    else ""
  }

  lemma VMOfIs(domain: string, addr: string, vm: string)
    requires Addresses(domain, addr, vm)
    ensures VMOf(domain, addr) == vm && VMFromAddress(domain, addr) == Some(vm) && addr != "" && vm != ""
  {
    VMFromAddressIff(domain, addr, vm);
    VMFromAddressIff(domain, addr, VMOf(domain, addr));
  }

  /** What a recipient does to an envelope: added exactly when there is a sender and
      the address names a VM; the VM stays that of the first. */
  ghost function Added(domain: string, e: Envelope, addr: string): Envelope {
    if e.from != "" && Named(domain, addr)
    then Envelope(e.from, e.rcpts + [addr], if e.vm == "" then VMOf(domain, addr) else e.vm)
    else e
  }

  lemma RcptAddsRecipient(domain: string, e: Envelope, rcpt: string, to: string, addr: string, rest: string)
    requires AnyCase(rcpt, "RCPT") && AnyCase(to, "TO") && Mailbox(addr)
    ensures Converse(domain, e, AddressLine(rcpt, to, addr) + CRLF + rest) == Converse(domain, Added(domain, e, addr), rest)
  {
    ParsesAddressLine(rcpt, "RCPT", to, "TO", addr);
    ArgumentSays(to, "TO", addr);
    assert "TO" + ":" == "TO:";
    ConverseLine(domain, e, AddressLine(rcpt, to, addr), rest);
    RcptAfter(domain, e, Argument(to, addr), addr);
  }

  lemma RcptAfter(domain: string, e: Envelope, arg: string, addr: string)
    requires HasPrefix(Upper(arg), "TO:") && AngleAddr(arg[3..]) == addr
    ensures AfterRcpt(domain, e, arg) == Added(domain, e, addr)
  {
    NamedIff(domain, addr);
    if Named(domain, addr) {
      VMOfIs(domain, addr, VMOf(domain, addr));
    }
  }

  function RcptLines(rcpt: string, to: string, addrs: seq<string>): string {
    if addrs == [] then "" else AddressLine(rcpt, to, addrs[0]) + CRLF + RcptLines(rcpt, to, addrs[1..])
  }

  predicate Mailboxes(addrs: seq<string>) {
    forall i :: 0 <= i < |addrs| ==> Mailbox(addrs[i])
  }

  ghost function AddedAll(domain: string, e: Envelope, addrs: seq<string>): Envelope
    decreases |addrs|
  {
    if addrs == [] then e else AddedAll(domain, Added(domain, e, addrs[0]), addrs[1..])
  }

  lemma {:induction false} RcptsAddRecipients(domain: string, e: Envelope, rcpt: string, to: string, addrs: seq<string>, rest: string)
    requires AnyCase(rcpt, "RCPT") && AnyCase(to, "TO") && Mailboxes(addrs)
    ensures Converse(domain, e, RcptLines(rcpt, to, addrs) + rest) == Converse(domain, AddedAll(domain, e, addrs), rest)
    decreases |addrs|
  {
    if addrs == [] {
      assert "" + rest == rest;
    } else {
      var tail := RcptLines(rcpt, to, addrs[1..]);
      assert RcptLines(rcpt, to, addrs) + rest == AddressLine(rcpt, to, addrs[0]) + CRLF + (tail + rest);
      assert Mailbox(addrs[0]);
      RcptAddsRecipient(domain, e, rcpt, to, addrs[0], tail + rest);
      RcptsAddRecipients(domain, Added(domain, e, addrs[0]), rcpt, to, addrs[1..], rest);
    }
  }

  lemma {:induction false} AddedAre(domain: string, e: Envelope, addrs: seq<string>)
    requires e.from != "" && (e.rcpts == []) == (e.vm == "")
    ensures var kept := Kept(domain, addrs);
      AddedAll(domain, e, addrs)
      == Envelope(e.from, e.rcpts + kept, if e.rcpts == [] && kept != [] then VMOf(domain, kept[0]) else e.vm)
    decreases |addrs|
  {
    if addrs == [] {
      assert e.rcpts + [] == e.rcpts;
    } else {
      var addr, tail := addrs[0], Kept(domain, addrs[1..]);
      AddedAre(domain, Added(domain, e, addr), addrs[1..]);
      if Named(domain, addr) {
        VMOfIs(domain, addr, VMOf(domain, addr));
        assert (e.rcpts + [addr]) + tail == e.rcpts + ([addr] + tail);
      } else {
        assert Kept(domain, addrs) == tail;
      }
    }
  }

  lemma {:induction false} NoneAdded(domain: string, e: Envelope, addrs: seq<string>)
    requires e.from == ""
    ensures AddedAll(domain, e, addrs) == e
    decreases |addrs|
  {
    if addrs != [] {
      NoneAdded(domain, e, addrs[1..]);
    }
  }

  /** DATA with recipients reads a message, and without any reads nothing. */
  lemma DataDelivers(domain: string, e: Envelope, data: string, lines: seq<string>, rest: string)
    requires AnyCase(data, "DATA") && AllClean(lines)
    ensures if e.rcpts != []
      then Converse(domain, e, data + CRLF + (Encode(lines) + rest)) == [Delivery(e, Join(lines))] + Converse(domain, e, rest)
      else Converse(domain, e, data + CRLF + rest) == Converse(domain, e, rest)
  {
    CommandWord(data, "DATA");
    ParsesBareWord(data);
    if e.rcpts != [] {
      ReadsCleanLine(data, Encode(lines) + rest);
      RoundTrip(lines, rest);
    } else {
      ReadsCleanLine(data, rest);
    }
  }

  /** The envelope a client asks for: the sender and, unless that is empty, those of
      the addresses that name a VM of the server's domain. */
  ghost function Asked(domain: string, sender: string, addrs: seq<string>): Envelope {
    var kept := if sender == "" then [] else Kept(domain, addrs);
    Envelope(sender, kept, if kept == [] then "" else VMOf(domain, kept[0]))
  }

  lemma AskedEnvelope(domain: string, e: Envelope, mail: string, from: string, sender: string,
                      rcpt: string, to: string, addrs: seq<string>, rest: string)
    requires AnyCase(mail, "MAIL") && AnyCase(from, "FROM") && Mailbox(sender)
    requires AnyCase(rcpt, "RCPT") && AnyCase(to, "TO") && Mailboxes(addrs)
    ensures Converse(domain, e, AddressLine(mail, from, sender) + CRLF + (RcptLines(rcpt, to, addrs) + rest))
      == Converse(domain, Asked(domain, sender, addrs), rest)
  {
    var started := Envelope(sender, [], "");
    MailStartsEnvelope(domain, e, mail, from, sender, RcptLines(rcpt, to, addrs) + rest);
    RcptsAddRecipients(domain, started, rcpt, to, addrs, rest);
    if sender == "" {
      NoneAdded(domain, started, addrs);
    } else {
      AddedAre(domain, started, addrs);
      assert [] + Kept(domain, addrs) == Kept(domain, addrs);
    }
  }

  /** From the bytes of a whole transaction, in any case of the command words and
      whatever came before it, to what is handed over: exactly one message, with the
      sender, the addresses that name a VM and the VM of the first of them, if there
      is a sender and such an address, and otherwise none, the message not being read. */
  lemma TransactionDelivers(domain: string, e: Envelope, mail: string, from: string, sender: string,
                            rcpt: string, to: string, addrs: seq<string>, data: string, lines: seq<string>, rest: string)
    requires AnyCase(mail, "MAIL") && AnyCase(from, "FROM") && Mailbox(sender)
    requires AnyCase(rcpt, "RCPT") && AnyCase(to, "TO") && Mailboxes(addrs)
    requires AnyCase(data, "DATA") && AllClean(lines)
    ensures var asked := Asked(domain, sender, addrs);
      var head := AddressLine(mail, from, sender) + CRLF + RcptLines(rcpt, to, addrs) + (data + CRLF);
      if sender != "" && exists i :: 0 <= i < |addrs| && Named(domain, addrs[i])
      then Converse(domain, e, head + (Encode(lines) + rest)) == [Delivery(asked, Join(lines))] + Converse(domain, asked, rest)
      else Converse(domain, e, head + rest) == Converse(domain, Envelope(sender, [], ""), rest)
  {
    var asked := Asked(domain, sender, addrs);
    KeptIff(domain, addrs);
    var message := if asked.rcpts != [] then Encode(lines) + rest else rest;
    AskedEnvelope(domain, e, mail, from, sender, rcpt, to, addrs, data + CRLF + message);
    DataDelivers(domain, asked, data, lines, rest);
    Regroup3(AddressLine(mail, from, sender) + CRLF, RcptLines(rcpt, to, addrs), data + CRLF, message);
  }

  lemma Regroup3<T>(a: seq<T>, b: seq<T>, c: seq<T>, d: seq<T>)
    ensures a + b + c + d == a + (b + (c + d))
  {
  }

  lemma {:induction false} KeptIff(domain: string, addrs: seq<string>)
    ensures Kept(domain, addrs) != [] <==> exists i :: 0 <= i < |addrs| && Named(domain, addrs[i])
  {
    if addrs != [] {
      KeptIff(domain, addrs[1..]);
      if Kept(domain, addrs[1..]) != [] {
        var i :| 0 <= i < |addrs[1..]| && Named(domain, addrs[1..][i]);
        assert Named(domain, addrs[i + 1]);
      }
      if i :| 0 <= i < |addrs| && Named(domain, addrs[i]) {
        if i > 0 {
          assert Named(domain, addrs[1..][i - 1]);
        }
      }
    }
  }

  /** One sender, one address and one message: one delivery to the VM addressed. */
  lemma OneMessageDelivered(domain: string, sender: string, addr: string, vm: string, lines: seq<string>)
    requires Tight(sender) && Mailbox(sender) && Mailbox(addr) && Addresses(domain, addr, vm) && AllClean(lines)
    ensures Converse(domain, NO_ENVELOPE, AddressLine("MAIL", "FROM", sender) + CRLF
                     + RcptLines("RCPT", "TO", [addr]) + ("DATA" + CRLF) + (Encode(lines) + ""))
      == [Delivery(Envelope(sender, [addr], vm), Join(lines))]
  {
    VMOfIs(domain, addr, vm);
    assert Named(domain, [addr][0]);
    assert Kept(domain, [addr][1..]) == [];
    assert Kept(domain, [addr]) == [addr];
    TransactionDelivers(domain, NO_ENVELOPE, "MAIL", "FROM", sender, "RCPT", "TO", [addr], "DATA", lines, "");
    assert Converse(domain, Envelope(sender, [addr], vm), "") == [];
  }

  /** RSET forgets the envelope, QUIT ends the conversation, and any other word than
      the commands that build an envelope changes nothing. */
  lemma OtherCommands(domain: string, e: Envelope, word: string, rest: string)
    requires Tight(word) && ' ' !in word && Clean(word)
    ensures AnyCase(word, "RSET") ==> Converse(domain, e, word + CRLF + rest) == Converse(domain, NO_ENVELOPE, rest)
    ensures AnyCase(word, "QUIT") ==> Converse(domain, e, word + CRLF + rest) == []
    ensures (forall known :: known in ["MAIL", "RCPT", "DATA", "RSET", "QUIT"] ==> !AnyCase(word, known)) ==>
        Converse(domain, e, word + CRLF + rest) == Converse(domain, e, rest)
  {
    ParsesBareWord(word);
    ReadsCleanLine(word, rest);
    AnyCaseIff(word, "MAIL");
    AnyCaseIff(word, "RCPT");
    AnyCaseIff(word, "DATA");
    AnyCaseIff(word, "RSET");
    AnyCaseIff(word, "QUIT");
    assert "MAIL" in ["MAIL", "RCPT", "DATA", "RSET", "QUIT"] && "RCPT" in ["MAIL", "RCPT", "DATA", "RSET", "QUIT"];
  }

  /** When the handlers answer 250, in terms of the argument itself. */
  lemma AcceptedIff(domain: string, e: Envelope, arg: string)
    ensures MailAccepted(arg) <==> |arg| >= 5 && AnyCase(arg[..5], "FROM:")
    ensures RcptAccepted(domain, e, arg)
      <==> e.from != "" && |arg| >= 3 && AnyCase(arg[..3], "TO:") && Named(domain, AngleAddr(arg[3..]))
  {
    PrefixIff(arg, "FROM:");
    PrefixIff(arg, "TO:");
    if |arg| >= 3 {
      NamedIff(domain, AngleAddr(arg[3..]));
    }
  }

  lemma PrefixIff(arg: string, capitals: string)
    requires NoSmalls(capitals)
    ensures HasPrefix(Upper(arg), capitals) <==> |arg| >= |capitals| && AnyCase(arg[..|capitals|], capitals)
  {
    if |arg| >= |capitals| {
      AnyCaseIff(arg[..|capitals|], capitals);
      assert Upper(arg)[..|capitals|] == Upper(arg[..|capitals|]);
    }
  }
}
