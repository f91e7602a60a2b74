/** The item of mail: the record the receiver fills in while a client talks to it,
    its session identifier, and the header parse run on it once the body is in. */
module ItemOfMail {
  import opened Wrappers
  import opened Text
  import Base36
  import Headers
  import Addresses

  /** What the connection hook is told: the client's address and its PTR name. */
  datatype ConnectInfo = ConnectInfo(value: string, domain: Option<string>)

  /** What the EHLO hook is told: the argument, the A record of the argument (`rip`),
      the PTR name of that address, and the A record of that name (`fip`). */
  datatype EhloInfo = EhloInfo(value: string, rip: Option<string>, domain: Option<string>, fip: Option<string>)

  /** The message body: the DATA argument, the lines received, whether the terminating
      `.` arrived, and the headers once they are parsed. */
  datatype Body = Body(value: string, text: seq<string>, accepted: bool, headers: Option<Headers.Outcome>)

  /** The item of mail. `authenticated` is the user name once AUTH succeeded; an absent
      entry (Ruby's `nil` or `false`) is `None`. */
  datatype Mail = Mail(
    localPort: string,
    localHostname: string,
    remotePort: string,
    remoteHostname: string,
    remoteIp: string,
    id: string,
    time: string,
    accepted: bool,
    prohibited: bool,
    encrypted: bool,
    authenticated: Option<string>,
    connect: Option<ConnectInfo>,
    ehlo: Option<EhloInfo>,
    expn: Option<string>,
    vfry: Option<string>,
    mailfrom: Option<Addresses.Address>,
    rcptto: Option<seq<Addresses.Address>>,
    data: Option<Body>)

  /** The clock readings and the random draw the constructor uses: seconds and
      microseconds of the current time, a number from `rand` in [0, 1), and the
      formatted local time. */
  datatype Clock = Clock(sec: nat, usec: nat, rnd: real, stamp: string)

  predicate ValidClock(c: Clock) {
    c.usec < 1000000 && 0.0 <= c.rnd < 1.0
  }

  /** The random part of the identifier: `(2176782336 * rand).to_i`. */
  function Draw(rnd: real): (n: nat)
    requires 0.0 <= rnd < 1.0
    ensures n < 2176782336 && n as real <= 2176782336.0 * rnd < n as real + 1.0
  {
    (2176782336.0 * rnd).Floor
  }

  /** The session identifier: the seconds in base 36, then six base-36 digits of the
      random draw, then two base-36 digits of the milliseconds, joined with `-`. */
  function SessionId(c: Clock): (id: string)
    requires ValidClock(c)
    ensures |id| == |Base36.Encode(c.sec)| + 10
    ensures forall k :: 0 <= k < |id| ==> Base36.IsDigit(id[k]) || id[k] == '-'
  {
    var parts := [Base36.Encode(c.sec), Base36.Padded(Draw(c.rnd), 6), Base36.Padded(c.usec / 1000, 2)];
    JoinThree(parts[0], parts[1], parts[2], '-');
    Join(parts, '-')
  }

  /** Reads an identifier back into its seconds, random draw and milliseconds. */
  function DecodeSessionId(id: string): Option<(nat, nat, nat)> {
    var f := Fields(id, '-');
    if |f| == 3 && forall i, k | 0 <= i < 3 && 0 <= k < |f[i]| :: Base36.IsDigit(f[i][k]) then
      Some((Base36.Decode(f[0]), Base36.Decode(f[1]), Base36.Decode(f[2])))
    else None
  }

  /** No information is lost in an identifier: the seconds, the random draw and the
      milliseconds can be read back from it (the draw has six digits, 36^6 being
      2176782336, and the milliseconds, below 1000, fit in two). */
  lemma SessionIdRoundTrip(c: Clock)
    requires ValidClock(c)
    ensures DecodeSessionId(SessionId(c)) == Some((c.sec, Draw(c.rnd), c.usec / 1000))
  {
    var a, b, d := Base36.Encode(c.sec), Base36.Padded(Draw(c.rnd), 6), Base36.Padded(c.usec / 1000, 2);
    JoinThree(a, b, d, '-');
    assert forall k :: 0 <= k < |a| ==> a[k] != '-';
    assert forall k :: 0 <= k < |b| ==> b[k] != '-';
    assert forall k :: 0 <= k < |d| ==> d[k] != '-';
    FieldsJoin([a, b, d], '-');
    Base36.DecodeEncode(c.sec);
    assert Base36.Pow36(6) == 2176782336;
    Base36.PaddedKeepsValue(Draw(c.rnd), 6);
    assert Base36.Pow36(2) == 1296;
    Base36.PaddedKeepsValue(c.usec / 1000, 2);
  }

  /** The constructor: the connection facts as given, the identifier and the time from
      the clock, and nothing else recorded yet. */
  function NewMail(localPort: string, localHostname: string, remotePort: string,
                   remoteHostname: string, remoteIp: string, c: Clock): (m: Mail)
    requires ValidClock(c)
    ensures m.localPort == localPort && m.localHostname == localHostname
    ensures m.remotePort == remotePort && m.remoteHostname == remoteHostname && m.remoteIp == remoteIp
    ensures DecodeSessionId(m.id) == Some((c.sec, Draw(c.rnd), c.usec / 1000))
    ensures m.time == c.stamp
    ensures !m.accepted && !m.prohibited && !m.encrypted && m.authenticated.None?
    ensures m.mailfrom.None? && m.rcptto.None? && m.data.None?
  {
    SessionIdRoundTrip(c);
    Mail(localPort, localHostname, remotePort, remoteHostname, remoteIp, SessionId(c), c.stamp,
         false, false, false, None, None, None, None, None, None, None, None)
  }

  /** `parse_headers`: the received lines up to the first empty one are unfolded into
      headers and filed in order, and the result is stored in the body. The parse
      fails, with `false` coming back and the caller failing, exactly when a header
      other than the last has no colon. An item without a body keeps no headers. */
  function ParseHeaders(m: Mail): (r: (Mail, bool))
    ensures r.0.data.Some? <==> m.data.Some?
    ensures m.data.Some? ==>
      var hs := Headers.Unfold(Headers.Section(m.data.value.text));
      && r.0 == m.(data := Some(m.data.value.(headers := Some(Headers.FileAll(hs, map[])))))
      && (r.1 <==> forall k :: 0 <= k < |hs| - 1 ==> ':' in hs[k])
    ensures m.data.None? ==> r == (m, false)
  {
    match m.data
    case None => (m, false)
    case Some(body) =>
      Headers.ParseHeadersUnfolds(body.text);
      Headers.HeadersOutcome(body.text);
      var h := Headers.ParseHeaders(body.text);
      (m.(data := Some(body.(headers := Some(h)))), h.Parsed?)
  }

  /** Parsing the headers again gives the same item: the parse starts from no headers
      and reads only the received lines. */
  lemma ParseHeadersIdempotent(m: Mail)
    ensures ParseHeaders(ParseHeaders(m).0) == ParseHeaders(m)
  {
  }
}
