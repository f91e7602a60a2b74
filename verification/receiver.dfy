/** The receiving side of an SMTP session: the greeting, the command loop that matches
    each line against the command table, the command handlers, the collection of the
    message body after DATA, and the verdict on the item of mail.

    The session is a value and every input from the client is an event; `Step` takes
    one event and returns the next session together with the lines written back.
    The handlers a user of the receiver overrides are the fields of `Hooks`; the
    libraries it calls (DNS, Base64, crypt, DKIM, the TLS handshake) are the fields of
    `Env`. */
module Receiver {
  import opened Wrappers
  import opened Text
  import opened Patterns
  import ExtendedClasses
  import opened ReceiverOptions
  import opened Addresses
  import Headers
  import opened ItemOfMail

  // ----- Replies -----

  /** What a handler hands to `send_text`: `nil`, one line, or a list of lines. */
  datatype Reply = NoReply | OneLine(line: string) | ManyLines(lines: seq<string>)

  /** The lines `send_text` writes for a reply, in order. */
  function LinesOf(r: Reply): seq<string> {
    match r
    case NoReply => []
    case OneLine(t) => [t]
    case ManyLines(ls) => ls
  }

  /** `ok?`: the reply's element 0 is neither `'4'` nor `'5'`. For one line that is its
      first character; for a list it is the whole first line; `nil` answers `nil`. */
  predicate Ok(r: Reply) {
    match r
    case NoReply => true
    case OneLine(t) => !(|t| > 0 && (t[0] == '4' || t[0] == '5'))
    case ManyLines(ls) => !(|ls| > 0 && (ls[0] == "4" || ls[0] == "5"))
  }

  /** A line that `write_text` counts as a level-5 warning. */
  predicate IsLevel5(line: string) {
    |line| > 0 && line[0] == '5'
  }

  predicate AnyLevel5(lines: seq<string>) {
    exists k | 0 <= k < |lines| :: IsLevel5(lines[k])
  }

  // ----- The receiver's fixed replies -----

  /** A reply line: the reply code and the enhanced status code, a space, the text. */
  function Coded(code: string, text: string): (line: string)
    ensures |line| > |code| && line[..|code|] == code && line[|code|] == ' '
  {
    code + " " + text
  }

  const Prohibited := Coded("450 4.7.1", "Sender IP ")
  const ProhibitedTail := " is temporarily prohibited from sending"
  const Unrecognized := Coded("500 5.5.1", "Unrecognized command ")
  const UnrecognizedTail := ", incorrectly formatted command, or command out of sequence"
  const TimeoutHead := Coded("501 5.4.7", "Closing connection due to inactivity--")
  const TimeoutTail := " was NOT saved"
  const AuthSucceeded := Coded("235 2.0.0", "Authentication succeeded")
  const AuthFailed := Coded("530 5.7.5", "Authentication failed")
  const AuthUnsupported := Coded("504 5.7.6", "authentication mechanism not supported")
  const EhloInvalid := Coded("550 5.5.0", "The domain name in EHLO does not validate")
  const TlsGoAhead := Coded("220 2.0.0", "TLS go ahead")
  const EnterMessage := Coded("354 3.0.0", "Enter message, ending with \".\" on a line by itself")

  /** Ruby's `String#inspect` as far as the reply needs it: the text in double quotes
      with `"` and `\` escaped. */
  function Inspect(text: string): (q: string)
    ensures |q| >= 2 && q[0] == '"' && q[|q| - 1] == '"'
  {
    "\"" + Escape(text) + "\""
  }

  function Escape(text: string): string {
    if |text| == 0 then ""
    else (if text[0] == '"' || text[0] == '\\' then ['\\', text[0]] else [text[0]]) + Escape(text[1..])
  }

  // ----- Hooks, environment, options -----

  /** The overridable handlers. Each one sees the item of mail as it stands when the
      source calls it, with the record it is about already stored in it. `prohibits`
      stands for an override of `connect` that marks the sender as prohibited. */
  datatype Hooks = Hooks(
    connect: Mail -> Reply,
    prohibits: Mail -> bool,
    ehlo: Mail -> Reply,
    quit: Mail -> Reply,
    expn: Mail -> Reply,
    help: Mail -> Reply,
    noop: Mail -> Reply,
    rset: Mail -> Reply,
    vfry: Mail -> Reply,
    password: string -> Option<string>,
    mailFrom: Mail -> Reply,
    rcptTo: Mail -> Reply,
    data: Mail -> Reply)

  /** The default handlers; `greetingTime` is the formatted current time of the banner. */
  function DefaultHooks(greetingTime: string): Hooks {
    Hooks(
      (m: Mail) => OneLine(Coded("220 2.0.0", "ESMTP RubyMTA 0.01 ") + greetingTime),
      (m: Mail) => false,
      (m: Mail) => ManyLines(["250-2.0.0 " + EhloName(m) + " Hello"]
                     + (if !m.encrypted then ["250-STARTTLS"] else [])
                     + ["250-AUTH PLAIN", "250 HELP"]),
      (m: Mail) => OneLine(Coded("221 2.0.0", "OK example.com closing connection")),
      (m: Mail) => OneLine(Coded("252 2.5.1", "Administrative prohibition")),
      (m: Mail) => OneLine(Coded("250 2.0.0", "QUIT AUTH, EHLO, EXPN, HELO, HELP, NOOP, RSET, VFRY, STARTTLS, MAIL FROM, RCPT TO, DATA")),
      (m: Mail) => OneLine(Coded("250 2.0.0", "OK")),
      (m: Mail) => OneLine(Coded("250 2.0.0", "Reset OK")),
      (m: Mail) => OneLine(Coded("252 2.5.1", "Administrative prohibition")),
      (u: string) => None,
      (m: Mail) => OneLine(Coded("250 2.0.0", "OK")),
      (m: Mail) => OneLine(Coded("250 2.0.0", "OK")),
      (m: Mail) => OneLine(Coded("250 2.0.0", "OK id=") + m.id))
  }

  /** The EHLO argument as interpolated by the default `ehlo` (empty when absent). */
  function EhloName(m: Mail): string {
    match m.ehlo
    case None => ""
    case Some(e) => e.value
  }

  /** The result of the DKIM verifier: whether it ran to completion and how many
      signatures it reports. */
  datatype DkimReport = DkimReport(ok: bool, signatures: nat)

  /** The libraries the receiver calls. `crypt` is `UnixCrypt.valid?`, `None` where it
      raises; `tlsHandshakeOk` is whether the TLS handshake after STARTTLS succeeds. */
  datatype Env = Env(
    dns: ExtendedClasses.Dns,
    decode64: string -> string,
    crypt: (string, Option<string>) -> Option<bool>,
    dkim: seq<string> -> DkimReport,
    tlsHandshakeOk: bool)

  datatype Ctx = Ctx(opts: Options, hooks: Hooks, env: Env)

  // ----- The session -----

  /** Whether the loop reads commands or the lines of a message body. */
  datatype Mode = Commands | Collecting

  /** How a session ended: the QUIT handler set `done`; SLAM or TIMEOUT; a failed TLS
      handshake; an I/O error on the connection (the `Quit` exception); any other
      exception (the rescue of last resort). */
  datatype Ending = Quitted | Slammed | TimedOut | TlsFailed | IoFailed | Faulted

  datatype Status = Open | Closed(ending: Ending)

  /** The receiver's state: the item of mail, the command level, whether a level-5
      line was written, the mode, and whether the loop is still running. */
  datatype Session = Session(mail: Mail, level: nat, warned: bool, mode: Mode, status: Status)

  /** What the client does next: sends a line (without its line ending), closes the
      connection, resets it, stays silent past the timeout, or an I/O error occurs. */
  datatype Event = Input(text: string) | EndOfInput | ConnReset | Silence | IoError

  /** `recv_text`: the line, or the word the receiver substitutes for a transport
      event; `None` where an I/O error raises `Quit`. */
  function RecvText(ev: Event): Option<string> {
    match ev
    case Input(t) => Some(t)
    case EndOfInput => Some("QUIT")
    case ConnReset => Some("SLAM")
    case Silence => Some("TIMEOUT")
    case IoError => None
  }

  /** Ends the session; the paths through `do_slam`, `do_timeout` and the two rescue
      clauses also mark the mail as not accepted. */
  function Close(s: Session, e: Ending): (t: Session)
    ensures t.status == Closed(e) && t.level == s.level && t.mode == s.mode && t.warned == s.warned
    ensures t.mail.accepted == (s.mail.accepted && (e == Quitted || e == TlsFailed))
    ensures t.mail == s.mail.(accepted := t.mail.accepted)
  {
    var m := if e == Quitted || e == TlsFailed then s.mail else s.mail.(accepted := false);
    s.(status := Closed(e), mail := m)
  }

  /** One step: the next session and the lines written. */
  datatype Stepped = Stepped(next: Session, sent: seq<string>)

  // ----- Handlers -----

  function HandleQuit(ctx: Ctx, s: Session): (Session, seq<string>) {
    var msg := ctx.hooks.quit(s.mail);
    (if Ok(msg) then s.(status := Closed(Quitted)) else s, LinesOf(msg))
  }

  function HandleAuth(ctx: Ctx, s: Session, arg: string): (Session, seq<string>) {
    var words := Words(arg);
    if |words| == 0 then (Close(s, Faulted), [])
    else if Upcase(words[0]) != "PLAIN" then (s, [AuthUnsupported])
    else
      match ExtendedClasses.ValidatePlain(Nth(words, 1), ctx.env.decode64, ctx.hooks.password, ctx.env.crypt)
      case Raised => (Close(s, Faulted), [])
      case Checked(user, ok) =>
        if ok then (s.(mail := s.mail.(authenticated := Some(user))), [AuthSucceeded])
        else (s, [AuthFailed])
  }

  /** The EHLO facts: the A record of the argument, its PTR name, and that name's A
      record. */
  function EhloFacts(dns: ExtendedClasses.Dns, value: string): (e: EhloInfo)
    ensures e.value == value && e.rip == ExtendedClasses.DigA(dns, Some(value))
    ensures e.domain == ExtendedClasses.DigPtr(dns, e.rip) && e.fip == ExtendedClasses.DigA(dns, e.domain)
  {
    var rip := ExtendedClasses.DigA(dns, Some(value));
    var domain := ExtendedClasses.DigPtr(dns, rip);
    EhloInfo(value, rip, domain, ExtendedClasses.DigA(dns, domain))
  }

  /** The EHLO name validates when its forward and reverse lookups give one address. */
  predicate EhloValidates(e: EhloInfo) {
    e.rip.Some? && e.fip.Some? && e.rip == e.fip
  }

  function HandleEhlo(ctx: Ctx, s: Session, arg: string): (Session, seq<string>) {
    var s1 := s.(mail := s.mail.(ehlo := Some(EhloFacts(ctx.env.dns, arg))));
    if ctx.opts.ehloValidationCheck && !EhloValidates(s1.mail.ehlo.value) then (s1, [EhloInvalid])
    else
      var msg := ctx.hooks.ehlo(s1.mail);
      (if Ok(msg) then s1.(level := 2) else s1, LinesOf(msg))
  }

  function HandleRset(ctx: Ctx, s: Session): (Session, seq<string>) {
    var msg := ctx.hooks.rset(s.mail);
    (if Ok(msg) then s.(level := 0) else s, LinesOf(msg))
  }

  function HandleStartTls(ctx: Ctx, s: Session): (Session, seq<string>) {
    if ctx.env.tlsHandshakeOk then (s.(mail := s.mail.(encrypted := true)), [TlsGoAhead])
    else (s.(status := Closed(TlsFailed)), [TlsGoAhead])
  }

  function HandleMailFrom(ctx: Ctx, s: Session, arg: string): (Session, seq<string>) {
    var (addr, refusal) := PsychValue(MailFrom, arg, ctx.opts, ctx.env.dns);
    var m1 := s.mail.(mailfrom := Some(addr), rcptto := Some([]));
    if refusal.Some? then (s.(mail := m1), [refusal.value])
    else
      var msg := ctx.hooks.mailFrom(m1);
      if Ok(msg) then (s.(mail := m1.(mailfrom := Some(addr.(accepted := true))), level := 3), LinesOf(msg))
      else (s.(mail := m1), LinesOf(msg))
  }

  function HandleRcptTo(ctx: Ctx, s: Session, arg: string): (Session, seq<string>) {
    var (addr, refusal) := PsychValue(RcptTo, arg, ctx.opts, ctx.env.dns);
    var before := s.mail.rcptto.GetOr([]);
    var m1 := s.mail.(rcptto := Some(before + [addr]));
    if refusal.Some? then (s.(mail := m1), [refusal.value])
    else
      var msg := ctx.hooks.rcptTo(m1);
      if Ok(msg) then (s.(mail := m1.(rcptto := Some(before + [addr.(accepted := true)])), level := 4), LinesOf(msg))
      else (s.(mail := m1), LinesOf(msg))
  }

  /** DATA: a fresh body is started and the loop turns to collecting lines. */
  function HandleData(s: Session, arg: string): (Session, seq<string>) {
    (s.(mode := Collecting, mail := s.mail.(data := Some(Body(arg, [], false, None)))), [EnterMessage])
  }

  /** The handler of a table entry, given the stripped capture group. */
  function Handle(ctx: Ctx, s: Session, h: Handler, arg: string): (Session, seq<string>) {
    match h
    case DoQuit => HandleQuit(ctx, s)
    case DoSlam => (Close(s, Slammed), [])
    case DoTimeout => (Close(s, TimedOut), [TimeoutHead + s.mail.id + TimeoutTail])
    case DoAuth => HandleAuth(ctx, s, arg)
    case DoEhlo => HandleEhlo(ctx, s, arg)
    case DoExpn =>
      var m := s.mail.(expn := Some(arg));
      (s.(mail := m), LinesOf(ctx.hooks.expn(m)))
    case DoHelp => (s, LinesOf(ctx.hooks.help(s.mail)))
    case DoNoop => (s, LinesOf(ctx.hooks.noop(s.mail)))
    case DoRset => HandleRset(ctx, s)
    case DoVfry =>
      var m := s.mail.(vfry := Some(arg));
      (s.(mail := m), LinesOf(ctx.hooks.vfry(m)))
    case DoStartTls => HandleStartTls(ctx, s)
    case DoMailFrom => HandleMailFrom(ctx, s, arg)
    case DoRcptTo => HandleRcptTo(ctx, s, arg)
    case DoData => HandleData(s, arg)
  }

  /** One pass of the command loop over a line: the first table entry that is legal at
      the current level and matches runs; QUIT and SLAM run even for a prohibited
      sender, every other command is then answered with 450; a line no legal entry
      matches is answered with 500. */
  function Dispatch(ctx: Ctx, s: Session, text: string): (Session, seq<string>) {
    match Patterns.Scan(s.level, text, 0)
    case None => (s, [Unrecognized + Inspect(text) + UnrecognizedTail])
    case Some(hit) =>
      var h := Table[hit.index].handler;
      if h != DoQuit && h != DoSlam && s.mail.prohibited then
        (s, [Prohibited + s.mail.remoteIp + ProhibitedTail])
      else Handle(ctx, s, h, Strip(text[hit.group..]))
  }

  // ----- Message body -----

  /** The verdict inputs: the sender was accepted; every recipient recorded was. */
  predicate SenderAccepted(m: Mail) {
    m.mailfrom.Some? && m.mailfrom.value.accepted
  }

  predicate AllRecipientsAccepted(m: Mail) {
    m.rcptto.None? || forall k | 0 <= k < |m.rcptto.value| :: m.rcptto.value[k].accepted
  }

  /** The body so far (a fresh one if none was started). */
  function BodyOf(m: Mail): Body {
    m.data.GetOr(Body("", [], false, None))
  }

  /** The end of DATA, once the `.` line has arrived: the headers are parsed (a parse
      that raises ends the session); a DKIM result that completes with signatures ends
      it too, since logging them goes through an unset logger; then the mail is
      accepted when the sender, every recipient and the body were accepted and no
      level-5 line was written; the `data` hook answers and the level drops to 1. */
  function FinishData(ctx: Ctx, s: Session): (Session, seq<string>) {
    var (m1, parsed) := ParseHeaders(s.mail);
    if !parsed then (Close(s.(mail := m1), Faulted), [])
    else
      var report := ctx.env.dkim(BodyOf(m1).text);
      if report.ok && report.signatures > 0 then (Close(s.(mail := m1), Faulted), [])
      else
        var verdict := SenderAccepted(m1) && AllRecipientsAccepted(m1) && BodyOf(m1).accepted && !s.warned;
        var m2 := if verdict then m1.(accepted := true) else m1;
        var msg := ctx.hooks.data(m2);
        (s.(mail := m2, level := 1, mode := Commands), LinesOf(msg))
  }

  /** One line of the message body: it is kept; the `.` line is kept too, marks the body
      accepted and ends the collection. */
  function Collect(ctx: Ctx, s: Session, text: string): (Session, seq<string>) {
    var body := BodyOf(s.mail);
    var lines := body.text + [text];
    if text == "." then
      FinishData(ctx, s.(mail := s.mail.(data := Some(body.(text := lines, accepted := true)))))
    else (s.(mail := s.mail.(data := Some(body.(text := lines)))), [])
  }

  // ----- The loop -----

  /** One event. Every line written goes through `write_text`, which notes a level-5
      line. */
  function Step(ctx: Ctx, s: Session, ev: Event): (st: Stepped)
    requires s.status.Open?
    ensures st.next.warned == (s.warned || AnyLevel5(st.sent))
  {
    var (next, sent) :=
      match RecvText(ev)
      case None => (Close(s, IoFailed), [])
      case Some(text) =>
        match s.mode
        case Commands => Dispatch(ctx, s, text)
        case Collecting => Collect(ctx, s, text);
    Stepped(next.(warned := s.warned || AnyLevel5(sent)), sent)
  }

  /** The loop over a sequence of events, until the session ends or the events run out;
      returns the last session and every line written. */
  function Run(ctx: Ctx, s: Session, events: seq<Event>): (r: (Session, seq<string>))
    decreases |events|
  {
    if |events| == 0 || s.status.Closed? then (s, [])
    else
      var st := Step(ctx, s, events[0]);
      var rest := Run(ctx, st.next, events[1..]);
      (rest.0, st.sent + rest.1)
  }

  /** The connection facts `receive` is called with. */
  datatype Peer = Peer(localPort: string, localHostname: string, remotePort: string,
                       remoteHostname: string, remoteIp: string)

  /** The start of `receive`: a new item of mail, the connect hook's greeting, then
      level 1 with the warning flag cleared (so a 5xx greeting is not counted). */
  function Start(ctx: Ctx, peer: Peer, clock: Clock): (r: (Session, seq<string>))
    requires ValidClock(clock)
    ensures r.0.status.Open? && r.0.mode == Commands && r.0.level == 1 && !r.0.warned
    ensures !r.0.mail.accepted && !r.0.mail.encrypted && r.0.mail.authenticated.None?
    ensures r.0.mail.mailfrom.None? && r.0.mail.rcptto.None? && r.0.mail.data.None?
    ensures r.0.mail.remoteIp == peer.remoteIp && r.0.mail.localPort == peer.localPort
    ensures DecodeSessionId(r.0.mail.id) == Some((clock.sec, Draw(clock.rnd), clock.usec / 1000))
    ensures r.0.mail.connect == Some(ConnectInfo(peer.remoteIp, ExtendedClasses.DigPtr(ctx.env.dns, Some(peer.remoteIp))))
    ensures r.0.mail.prohibited == ctx.hooks.prohibits(r.0.mail.(prohibited := false))
    ensures r.1 == LinesOf(ctx.hooks.connect(r.0.mail))
  {
    var m0 := NewMail(peer.localPort, peer.localHostname, peer.remotePort, peer.remoteHostname, peer.remoteIp, clock);
    var m1 := m0.(connect := Some(ConnectInfo(peer.remoteIp, ExtendedClasses.DigPtr(ctx.env.dns, Some(peer.remoteIp)))));
    var m2 := m1.(prohibited := ctx.hooks.prohibits(m1));
    (Session(m2, 1, false, Commands, Open), LinesOf(ctx.hooks.connect(m2)))
  }

  /** How `receive` ends: with the item of mail handed to `received` and how the
      session closed, or still waiting for input when the events ran out. */
  datatype Outcome = Finished(mail: Mail, ending: Ending, transcript: seq<string>)
                   | Waiting(session: Session, transcript: seq<string>)

  function Receive(ctx: Ctx, peer: Peer, clock: Clock, events: seq<Event>): Outcome
    requires ValidClock(clock)
  {
    var (s0, greeting) := Start(ctx, peer, clock);
    var (s, sent) := Run(ctx, s0, events);
    if s.status.Closed? then Finished(s.mail, s.status.ending, greeting + sent)
    else Waiting(s, greeting + sent)
  }
}
