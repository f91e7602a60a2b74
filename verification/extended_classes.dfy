/** The lookups the receiver grafts onto `String` and `NilClass`: DNS digs that answer
    "first result or nil", the DNS blacklist query, and the SASL PLAIN credential check.
    Every method also has a `nil` receiver, modelled as `None`, that answers `nil` (or a
    failed check) instead of raising. */
module ExtendedClasses {
  import opened Wrappers
  import Text

  /** The resolver, as the record lists it returns for a query name. An empty list is
      "no record"; `ptr` is the reverse lookup, `None` when it finds no name. */
  datatype Dns = Dns(
    a: string -> seq<string>,
    aaaa: string -> seq<string>,
    mx: string -> seq<string>,
    txt: string -> seq<seq<string>>,
    ptr: string -> Option<string>)

  /** `dig_a`: the first IPv4 address of a name, `nil` when there is none or the
      receiver is `nil`. */
  function DigA(dns: Dns, name: Option<string>): (r: Option<string>)
    ensures name.None? ==> r.None?
    ensures name.Some? ==> (r.None? <==> |dns.a(name.value)| == 0)
    ensures r.Some? ==> name.Some? && r.value == dns.a(name.value)[0]
  {
    match name
    case None => None
    case Some(n) => First(dns.a(n))
  }

  /** `dig_aaaa`: the first IPv6 address, lower-cased, or `nil`. */
  function DigAaaa(dns: Dns, name: Option<string>): (r: Option<string>)
    ensures name.None? ==> r.None?
    ensures name.Some? ==> (r.None? <==> |dns.aaaa(name.value)| == 0)
    ensures r.Some? ==> name.Some? && r.value == Text.Downcase(dns.aaaa(name.value)[0])
  {
    match name
    case None => None
    case Some(n) =>
      var all := dns.aaaa(n);
      if |all| == 0 then None else Some(Text.Downcase(all[0]))
  }

  /** `dig_mx`: the whole list of exchanges, or `nil` when it is empty. */
  function DigMx(dns: Dns, name: Option<string>): (r: Option<seq<string>>)
    ensures r.None? <==> name.None? || |dns.mx(name.value)| == 0
    ensures r.Some? ==> name.Some? && r.value == dns.mx(name.value) && |r.value| > 0
  {
    match name
    case None => None
    case Some(n) => if |dns.mx(n)| == 0 then None else Some(dns.mx(n))
  }

  /** `dig_dk`: the first string of the first TXT record, or `nil`. */
  function DigDk(dns: Dns, name: Option<string>): (r: Option<string>)
    ensures name.None? ==> r.None?
    ensures r.Some? ==> (name.Some? && |dns.txt(name.value)| > 0
                         && |dns.txt(name.value)[0]| > 0 && r.value == dns.txt(name.value)[0][0])
    ensures name.Some? && |dns.txt(name.value)| > 0 && |dns.txt(name.value)[0]| > 0 ==> r.Some?
  {
    match name
    case None => None
    case Some(n) => if |dns.txt(n)| == 0 then None else First(dns.txt(n)[0])
  }

  /** `dig_ptr`: the reverse name of the lower-cased address, or `nil`. */
  function DigPtr(dns: Dns, name: Option<string>): (r: Option<string>)
    ensures name.None? ==> r.None?
    ensures name.Some? ==> r == dns.ptr(Text.Downcase(name.value))
  {
    match name
    case None => None
    case Some(n) => dns.ptr(Text.Downcase(n))
  }

  function Reverse<T>(xs: seq<T>): (r: seq<T>)
    ensures |r| == |xs|
    ensures forall k :: 0 <= k < |xs| ==> r[k] == xs[|xs| - 1 - k]
  {
    if |xs| == 0 then [] else Reverse(xs[1..]) + [xs[0]]
  }

  /** `dx.split('.').reverse.join('.')`: the labels of a name in reverse order. */
  function ReverseName(dx: string): string {
    Text.Join(Reverse(Text.Split(dx, '.')), '.')
  }

  /** The name `blacklisted?` queries: the reversed address, a dot, then the list's zone. */
  function BlacklistQuery(zone: string, ip: string): string {
    ReverseName(ip) + "." + zone
  }

  /** `zone.blacklisted?(ip)`: listed when the query name has at least one A record;
      a name that does not exist has none. */
  function Blacklisted(dns: Dns, zone: string, ip: string): (listed: bool)
    ensures listed <==> First(dns.a(BlacklistQuery(zone, ip))).Some?
  {
    |dns.a(BlacklistQuery(zone, ip))| > 0
  }

  /** For a dotted quad `a.b.c.d` the query name is `d.c.b.a.zone`, the form of
      section 2.1 of RFC 5782. */
  lemma BlacklistQueryOfQuad(zone: string, a: string, b: string, c: string, d: string)
    requires '.' !in a && '.' !in b && '.' !in c && '.' !in d && d != ""
    ensures BlacklistQuery(zone, a + "." + b + "." + c + "." + d) == d + "." + c + "." + b + "." + a + "." + zone
  {
    var ip := a + "." + b + "." + c + "." + d;
    JoinFour(a, b, c, d, '.');
    Text.FieldsJoin([a, b, c, d], '.');
    assert Text.Split(ip, '.') == [a, b, c, d];
    assert Reverse([a, b, c, d]) == [d, c, b, a];
    JoinFour(d, c, b, a, '.');
  }

  lemma JoinFour(a: string, b: string, c: string, d: string, sep: char)
    ensures Text.Join([a, b, c, d], sep) == a + [sep] + b + [sep] + c + [sep] + d
  {
    assert [a, b, c, d][1..] == [b, c, d];
    Text.JoinThree(b, c, d, sep);
  }

  /** Reversing the labels twice gives the name back when it neither starts nor ends
      with a dot (otherwise Ruby's `split` loses the empty edge label). */
  lemma {:induction false} ReverseNameTwice(dx: string)
    requires |dx| > 0 && dx[0] != '.' && dx[|dx| - 1] != '.'
    ensures ReverseName(ReverseName(dx)) == dx
  {
    var f := Text.Fields(dx, '.');
    LastFieldNonEmpty(dx, '.');
    FirstFieldNonEmpty(dx, '.');
    assert Text.Split(dx, '.') == f;
    var rf := Reverse(f);
    Text.FieldsJoin(rf, '.');
    assert rf[|rf| - 1] == f[0];
    assert Text.Split(ReverseName(dx), '.') == rf;
    ReverseReverse(f);
    Text.JoinFields(dx, '.');
  }

  lemma ReverseReverse<T>(xs: seq<T>)
    ensures Reverse(Reverse(xs)) == xs
  {
  }

  lemma {:induction false} LastFieldNonEmpty(s: string, sep: char)
    requires |s| > 0 && s[|s| - 1] != sep
    ensures Text.Fields(s, sep)[|Text.Fields(s, sep)| - 1] != ""
  {
    if |s| > 1 {
      LastFieldNonEmpty(s[1..], sep);
    }
  }

  lemma FirstFieldNonEmpty(s: string, sep: char)
    requires |s| > 0 && s[0] != sep
    ensures Text.Fields(s, sep)[0] != ""
  {
  }

  /** The two credentials of a decoded SASL PLAIN message (section 2 of RFC 4616):
      `decoded.split("\0")[1..-1]`, so the authorization identity is dropped and a
      missing field is `nil`. */
  function PlainCredentials(decoded: string): (Option<string>, Option<string>) {
    var fields := Text.Split(decoded, '\0');
    (Nth(fields, 1), Nth(fields, 2))
  }

  /** Digest part of a stored `{SCHEME}digest` hash: the text after the last `}` when
      the hash starts with `{`; `nil` when `/^{(.*)}(.*)$/` does not match. */
  function HashDigest(hash: string): (r: Option<string>)
    ensures r.Some? <==> |hash| >= 2 && hash[0] == '{' && '}' in hash[1..]
    ensures r.Some? ==> exists b :: DigestAt(hash, b) && r.value == hash[b + 1..]
  {
    if |hash| >= 2 && hash[0] == '{' then
      match LastBrace(hash, |hash|)
      case Some(b) =>
        assert DigestAt(hash, b);
        Some(hash[b + 1..])
      case None => None
    else None
  }

  /** `}` at `b` is the last one of the hash, and comes after the opening `{`. */
  ghost predicate DigestAt(hash: string, b: int) {
    1 <= b < |hash| && hash[b] == '}' && forall k :: b < k < |hash| ==> hash[k] != '}'
  }

  function LastBrace(hash: string, end: nat): (r: Option<nat>)
    requires end <= |hash|
    ensures r.Some? ==> (1 <= r.value < end && hash[r.value] == '}'
                         && forall k :: r.value < k < end ==> hash[k] != '}')
    ensures r.None? ==> forall k :: 1 <= k < end ==> hash[k] != '}'
  {
    if end <= 1 then None
    else if hash[end - 1] == '}' then Some(end - 1)
    else LastBrace(hash, end - 1)
  }

  /** Outcome of `validate_plain`: a username and a verdict, or the exception raised by
      the crypt library. */
  datatype PlainCheck = Checked(username: string, ok: bool) | Raised

  /** `blob.validate_plain { |u| password(u) }`. `lookup` is the block, `decode64` is
      `Base64.decode64` and `crypt` is `UnixCrypt.valid?`, which also receives the
      `nil` digest of a hash not in `{SCHEME}digest` form (`None` when it raises). */
  function ValidatePlain(blob: Option<string>, decode64: string -> string,
                         lookup: string -> Option<string>,
                         crypt: (string, Option<string>) -> Option<bool>): (r: PlainCheck)
    ensures blob.None? ==> r == Checked("", false)
    ensures blob.Some? && (PlainCredentials(decode64(blob.value)).0.None?
                           || PlainCredentials(decode64(blob.value)).1.None?)
            ==> r == Checked("", false)
    ensures r.Checked? && r.ok ==>
      var (u, p) := PlainCredentials(decode64(blob.value));
      && blob.Some? && u == Some(r.username) && p.Some?
      && lookup(r.username).Some?
      && crypt(p.value, HashDigest(lookup(r.username).value)) == Some(true)
    ensures r.Raised? ==> blob.Some? && PlainCredentials(decode64(blob.value)).1.Some?
    ensures blob.Some? ==>
      var (u, p) := PlainCredentials(decode64(blob.value));
      u.Some? && p.Some? ==>
        && (lookup(u.value).None? ==> r == Checked("", false))
        && (lookup(u.value).Some? ==>
              match crypt(p.value, HashDigest(lookup(u.value).value))
              case None => r.Raised?
              case Some(ok) => r == Checked(u.value, ok))
  {
    match blob
    case None => Checked("", false)
    case Some(b) =>
      var (u, p) := PlainCredentials(decode64(b));
      if u.None? || p.None? then Checked("", false)
      else match lookup(u.value)
        case None => Checked("", false)
        case Some(hash) =>
          match crypt(p.value, HashDigest(hash))
          case None => Raised
          case Some(ok) => Checked(u.value, ok)
  }

  /** The encoded message `authzid NUL user NUL password` decodes to exactly the
      user and password, whenever no field holds a NUL and the password is not empty. */
  lemma PlainRoundTrip(authzid: string, user: string, password: string)
    requires '\0' !in authzid && '\0' !in user && '\0' !in password
    requires password != ""
    ensures PlainCredentials(authzid + "\0" + user + "\0" + password) == (Some(user), Some(password))
  {
    var s := authzid + "\0" + user + "\0" + password;
    Text.JoinThree(authzid, user, password, '\0');
    Text.FieldsJoin([authzid, user, password], '\0');
  }

  /** `\0bob\0` carries an empty password, which the split drops: it fails closed.
      `\0\0pw` reaches the lookup with an empty username. */
  lemma PlainEdgeCases()
    ensures PlainCredentials("\0bob\0") == (Some("bob"), None)
    ensures PlainCredentials("\0\0pw") == (Some(""), Some("pw"))
  {
    Text.FieldsJoin(["", "bob", ""], '\0');
    Text.JoinThree("", "bob", "", '\0');
    assert "" + ['\0'] + "bob" + ['\0'] + "" == "\0bob\0";
    assert Text.Fields("\0bob\0", '\0') == ["", "bob", ""];
    assert ["", "bob", ""][..2] == ["", "bob"];
    assert Text.DropTrailingEmpty(["", "bob"]) == ["", "bob"];
    Text.FieldsJoin(["", "", "pw"], '\0');
    Text.JoinThree("", "", "pw", '\0');
    assert "" + ['\0'] + "" + ['\0'] + "pw" == "\0\0pw";
  }

  /** When a credential is missing the lookup block is never called: any two lookups
      give the same result. */
  lemma LookupOnlyWithBothCredentials(blob: Option<string>, decode64: string -> string,
                                      lookup1: string -> Option<string>,
                                      lookup2: string -> Option<string>,
                                      crypt: (string, Option<string>) -> Option<bool>)
    requires blob.None? || PlainCredentials(decode64(blob.value)).0.None?
             || PlainCredentials(decode64(blob.value)).1.None?
    ensures ValidatePlain(blob, decode64, lookup1, crypt) == ValidatePlain(blob, decode64, lookup2, crypt)
    ensures ValidatePlain(blob, decode64, lookup1, crypt) == Checked("", false)
  {
  }

  /** A well-formed PLAIN message for a user whose stored hash is `{SCHEME}digest` is
      answered with that user and the crypt verdict on the password and the digest. */
  lemma PlainLogin(blob: string, decode64: string -> string,
                   lookup: string -> Option<string>,
                   crypt: (string, Option<string>) -> Option<bool>,
                   authzid: string, user: string, password: string,
                   scheme: string, digest: string, verdict: bool)
    requires decode64(blob) == authzid + "\0" + user + "\0" + password
    requires '\0' !in authzid && '\0' !in user && '\0' !in password && password != ""
    requires '}' !in scheme && '}' !in digest
    requires lookup(user) == Some("{" + scheme + "}" + digest)
    requires crypt(password, Some(digest)) == Some(verdict)
    ensures ValidatePlain(Some(blob), decode64, lookup, crypt) == Checked(user, verdict)
  {
    PlainRoundTrip(authzid, user, password);
    SchemeIgnored(scheme, digest);
  }

  /** The scheme of a stored hash is ignored: only the text after the last `}` reaches
      the crypt comparison. */
  lemma SchemeIgnored(scheme: string, digest: string)
    requires '}' !in scheme && '}' !in digest
    ensures HashDigest("{" + scheme + "}" + digest) == Some(digest)
  {
    var h := "{" + scheme + "}" + digest;
    var b := |scheme| + 1;
    assert h[b] == '}';
    assert h[b + 1..] == digest;
    assert '}' in h[1..] by { assert h[1..][b - 1] == '}'; }
    var r := LastBrace(h, |h|);
    assert r.Some?;
    assert r.value == b;
  }
}
