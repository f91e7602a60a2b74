/** The address investigation run on the argument of MAIL FROM and RCPT TO: the bounce
    form `<>`, the `name <local@domain>` form, the checks on the local part, and the
    DNS facts gathered for the domain. */
module Addresses {
  import opened Wrappers
  import opened Text
  import ExtendedClasses
  import opened ReceiverOptions

  /** Which command the address came with. */
  datatype Kind = MailFrom | RcptTo

  /** The command's name as it appears in the 501 message. */
  function KindName(kind: Kind): string {
    match kind
    case MailFrom => "MAIL FROM"
    case RcptTo => "RCPT TO"
  }

  /** How the value broke up: not at all (the 501 case), as a bounce, or as a mailbox. */
  datatype Parts =
    | Unparsed
    | Bounce(name: string)
    | Mailbox(name: string, url: string, localPart: string, domain: string)

  /** The results of the local-part checks. */
  datatype CharFacts = CharFacts(badCharacters: bool, wrongDotUsage: bool)

  /** The DNS facts about the domain: its first A record, its MX names, and the first A
      record of each MX name (present only when there are MX names). */
  datatype DnsFacts = DnsFacts(ip: Option<string>, mxs: Option<seq<string>>, ips: Option<seq<Option<string>>>)

  /** The record kept for a MAIL FROM or an RCPT TO. */
  datatype Address = Address(
    value: string,
    accepted: bool,
    parts: Parts,
    chars: Option<CharFacts>,
    dns: Option<DnsFacts>)

  /** `value` matches `^(.*)<>$`. */
  predicate EndsWithBounce(value: string) {
    |value| >= 2 && value[|value| - 2..] == "<>"
  }

  /** `w` matches `.+@.+\..+` as a whole. */
  predicate InnerOk(w: string) {
    exists a | 1 <= a < |w| :: w[a] == '@' && exists d | a + 2 <= d < |w| - 1 :: w[d] == '.'
  }

  /** `value` matches `^(.*)<(.+@.+\..+)>$` with the `<` of the second group at `i`. */
  predicate OpenAt(value: string, i: int) {
    && 0 <= i && i + 1 <= |value| - 1
    && value[|value| - 1] == '>'
    && value[i] == '<'
    && InnerOk(value[i + 1..|value| - 1])
  }

  function LastOpen(value: string, i: int): (r: Option<nat>)
    requires i < |value|
    ensures r.Some? ==> r.value <= i && OpenAt(value, r.value)
    ensures forall j :: 0 <= j <= i && OpenAt(value, j) ==> r.Some? && j <= r.value
    decreases i + 1
  {
    if i < 0 then None else if OpenAt(value, i) then Some(i) else LastOpen(value, i - 1)
  }

  /** Where the greedy `(.*)` leaves the `<`: the last offset at which the rest of the
      pattern matches, or `None` when the pattern does not match at all. */
  function Opening(value: string): (r: Option<nat>)
    ensures r.Some? ==> OpenAt(value, r.value)
    ensures forall j :: OpenAt(value, j) ==> r.Some? && j <= r.value
  {
    if |value| == 0 then None else LastOpen(value, |value| - 1)
  }

  /** A character the local-part class `[a-zA-Z0-9\!\#\$%&'*+-\/?^_`{|}~]` admits. The
      `+-\/` in it is a range, which admits `+ , - . /`; `=` is not in the class. */
  predicate LocalChar(c: char) {
    || 'a' <= c <= 'z' || 'A' <= c <= 'Z' || '0' <= c <= '9'
    || c in "!#$%&'*+,-./?^_`{|}~"
  }

  /** The local part does not match `^[class]+$`. */
  predicate BadCharacters(local: string) {
    !(|local| > 0 && forall k | 0 <= k < |local| :: LocalChar(local[k]))
  }

  /** The local part starts or ends with a dot, or holds two dots in a row. */
  predicate WrongDotUsage(local: string) {
    || (|local| > 0 && local[0] == '.')
    || (|local| > 0 && local[|local| - 1] == '.')
    || exists k | 0 <= k < |local| - 1 :: local[k] == '.' && local[k + 1] == '.'
  }

  function CharCheck(opts: Options, kind: Kind): bool {
    match kind
    case MailFrom => opts.senderCharacterCheck
    case RcptTo => opts.recipientCharacterCheck
  }

  function MxCheck(opts: Options, kind: Kind): bool {
    match kind
    case MailFrom => opts.senderMxCheck
    case RcptTo => opts.recipientMxCheck
  }

  /** The DNS lookups for a domain. */
  function Investigate(dns: ExtendedClasses.Dns, domain: string): (f: DnsFacts)
    ensures f.ip == ExtendedClasses.DigA(dns, Some(domain))
    ensures f.mxs == ExtendedClasses.DigMx(dns, Some(domain))
    ensures f.ips.Some? <==> f.mxs.Some?
    ensures f.ips.Some? ==> |f.ips.value| == |f.mxs.value|
                            && forall k :: 0 <= k < |f.mxs.value| ==>
                                 f.ips.value[k] == ExtendedClasses.DigA(dns, Some(f.mxs.value[k]))
  {
    var mxs := ExtendedClasses.DigMx(dns, Some(domain));
    DnsFacts(
      ExtendedClasses.DigA(dns, Some(domain)),
      mxs,
      if mxs.Some? then Some(seq(|mxs.value|, k requires 0 <= k < |mxs.value| => ExtendedClasses.DigA(dns, Some(mxs.value[k]))))
      else None)
  }

  /** The reply for a value with no proper address in it. */
  function NoProperAddress(kind: Kind, value: string): string {
    "501 5.1.7 '" + value + "' No proper address (<...>) on the " + KindName(kind) + " line"
  }

  /** The address investigation. It records the value; a MAIL FROM ending in `<>` is a
      bounce and nothing more is looked at; a value without a `<local@domain.tld>`
      mailbox at its end is refused with a 501 reply; otherwise the mailbox is split
      into local part and domain, the local part is checked when the character check for
      this kind is on, and the domain is looked up when the MX check for this kind is
      on. The second component is the reply that refuses the value, if any. */
  function PsychValue(kind: Kind, value: string, opts: Options, dns: ExtendedClasses.Dns): (r: (Address, Option<string>))
    ensures r.0.value == value && !r.0.accepted
    ensures r.0.parts.Bounce? <==> kind == MailFrom && EndsWithBounce(value)
    ensures r.0.parts.Bounce? ==> r.0.parts.name == Strip(value[..|value| - 2]) && r.0.chars.None? && r.0.dns.None?
    ensures r.1.Some? <==> r.0.parts.Unparsed?
    ensures r.1.Some? <==> !(kind == MailFrom && EndsWithBounce(value)) && forall i :: !OpenAt(value, i)
    ensures r.1.Some? ==> |r.1.value| >= 4 && r.1.value[..4] == "501 " && r.0.chars.None? && r.0.dns.None?
    ensures r.0.parts.Mailbox? ==>
      exists i :: && OpenAt(value, i)
                  && (forall j :: OpenAt(value, j) ==> j <= i)
                  && r.0.parts.name == Strip(value[..i])
                  && r.0.parts.url == Strip(value[i + 1..|value| - 1])
    ensures r.0.parts.Mailbox? ==>
      var m := r.0.parts;
      && '@' !in m.localPart && '@' !in m.domain
      && LocalField(m.url, m.localPart) && DomainField(m.url, m.localPart, m.domain)
    ensures r.0.chars.Some? <==> r.0.parts.Mailbox? && CharCheck(opts, kind)
    ensures r.0.chars.Some? ==>
      r.0.chars.value == CharFacts(BadCharacters(r.0.parts.localPart), WrongDotUsage(r.0.parts.localPart))
    ensures r.0.dns.Some? <==> r.0.parts.Mailbox? && MxCheck(opts, kind)
    ensures r.0.dns.Some? ==> r.0.dns.value == Investigate(dns, r.0.parts.domain)
  {
    if kind == MailFrom && EndsWithBounce(value) then
      (Address(value, false, Bounce(Strip(value[..|value| - 2])), None, None), None)
    else match Opening(value)
      case None => (Address(value, false, Unparsed, None, None), Some(NoProperAddress(kind, value)))
      case Some(i) =>
        var m := MailboxParts(value, i);
        var chars := if CharCheck(opts, kind) then Some(CharFacts(BadCharacters(m.localPart), WrongDotUsage(m.localPart))) else None;
        var facts := if MxCheck(opts, kind) then Some(Investigate(dns, m.domain)) else None;
        (Address(value, false, m, chars, facts), None)
  }

  /** The name, the address and its `@`-split parts of a value whose mailbox opens at
      `i`. The local part is the text before the first `@` of the address and the
      domain is the field after it. */
  function MailboxParts(value: string, i: nat): (m: Parts)
    requires OpenAt(value, i)
    ensures m.Mailbox?
    ensures m.name == Strip(value[..i]) && m.url == Strip(value[i + 1..|value| - 1])
    ensures '@' !in m.localPart && '@' !in m.domain
    ensures LocalField(m.url, m.localPart) && DomainField(m.url, m.localPart, m.domain)
  {
    var url := Strip(value[i + 1..|value| - 1]);
    ProperAddressSplits(value[i + 1..|value| - 1]);
    UrlSplit(url);
    Mailbox(Strip(value[..i]), url, Split(url, '@')[0], Split(url, '@')[1])
  }

  /** The first two fields of `url.split("@")` are the local part and the domain. */
  lemma UrlSplit(url: string)
    requires |Split(url, '@')| >= 2
    ensures var f := Split(url, '@');
      && '@' !in f[0] && '@' !in f[1]
      && LocalField(url, f[0]) && DomainField(url, f[0], f[1])
  {
    var all := Fields(url, '@');
    assert Split(url, '@')[0] == all[0] && Split(url, '@')[1] == all[1];
    FirstFieldPrefix(url, '@');
    SecondField(url, '@');
  }

  /** `local` is the text of `url` before its first `@`. */
  predicate LocalField(url: string, local: string) {
    |local| < |url| && url[..|local|] == local && url[|local|] == '@'
  }

  /** `domain` is the field of `url` after the `@` that ends `local`: it runs to the
      next `@` or to the end, as the second field of `url.split("@")` does. */
  predicate DomainField(url: string, local: string, domain: string) {
    var d := |local| + 1;
    && d + |domain| <= |url| && url[d..d + |domain|] == domain
    && (d + |domain| == |url| || url[d + |domain|] == '@')
  }

  /** The mailbox of a proper address always splits on `@` into at least a local part
      and a domain, so neither of them is `nil`. */
  lemma ProperAddressSplits(inner: string)
    requires InnerOk(inner)
    ensures |Split(Strip(inner), '@')| >= 2
  {
    var a, d :| 1 <= a < |inner| && inner[a] == '@' && a + 2 <= d < |inner| - 1 && inner[d] == '.';
    var url := Strip(inner);
    var b :| StrippedAt(inner, b, url);
    StrippedKeeps(inner, b, url, a);
    StrippedKeeps(inner, b, url, d);
    assert '@' in url[..d - b];
    LaterFieldNonEmpty(url, '@', d - b);
  }

  /** A character other than `sep` after a `sep` lies in a non-empty field other than
      the first. */
  lemma {:induction false} LaterFieldNonEmpty(s: string, sep: char, p: nat)
    requires p < |s| && s[p] != sep && sep in s[..p]
    ensures |Split(s, sep)| >= 2
  {
    var j := FieldHolding(s, sep, p);
    var r := Fields(s, sep);
    assert r[j] != "";
  }

  /** The index of a non-empty field that holds position `p`, which is not the first
      field when a separator comes before `p`. */
  lemma {:induction false} FieldHolding(s: string, sep: char, p: nat) returns (j: nat)
    requires p < |s| && s[p] != sep
    ensures j < |Fields(s, sep)| && |Fields(s, sep)[j]| > 0
    ensures sep in s[..p] ==> j >= 1
  {
    if p == 0 {
      j := 0;
    } else if s[0] == sep {
      var j' := FieldHolding(s[1..], sep, p - 1);
      j := j' + 1;
    } else {
      assert sep in s[..p] ==> sep in s[1..][..p - 1];
      j := FieldHolding(s[1..], sep, p - 1);
    }
  }

  /** The first field of a split is a prefix of the text and, when there is a second
      field, a separator follows it. */
  lemma {:induction false} FirstFieldPrefix(s: string, sep: char)
    ensures |Fields(s, sep)[0]| <= |s|
    ensures s[..|Fields(s, sep)[0]|] == Fields(s, sep)[0]
    ensures |Fields(s, sep)| >= 2 ==> |Fields(s, sep)[0]| < |s| && s[|Fields(s, sep)[0]|] == sep
    ensures |Fields(s, sep)| == 1 ==> Fields(s, sep)[0] == s
  {
    if |s| > 0 && s[0] != sep {
      FirstFieldPrefix(s[1..], sep);
    }
  }

  /** The fields after the first are the fields of the text after the first separator. */
  lemma {:induction false} FieldsRest(s: string, sep: char)
    requires |Fields(s, sep)| >= 2
    ensures |Fields(s, sep)[0]| < |s|
    ensures Fields(s, sep)[1..] == Fields(s[|Fields(s, sep)[0]| + 1..], sep)
  {
    if s[0] != sep {
      FieldsRest(s[1..], sep);
      assert s[|Fields(s, sep)[0]| + 1..] == s[1..][|Fields(s[1..], sep)[0]| + 1..];
    }
  }

  /** The second field of a split: it starts right after the first separator and ends
      at the next separator or at the end of the text. */
  lemma SecondField(s: string, sep: char)
    requires |Fields(s, sep)| >= 2
    ensures var d := |Fields(s, sep)[0]| + 1; var f := Fields(s, sep)[1];
      && d + |f| <= |s| && s[d..d + |f|] == f
      && (d + |f| == |s| || s[d + |f|] == sep)
  {
    var d := |Fields(s, sep)[0]| + 1;
    FieldsRest(s, sep);
    var rest := s[d..];
    assert Fields(s, sep)[1] == Fields(rest, sep)[0];
    FirstFieldPrefix(rest, sep);
  }

  /** Ruby's dot rule as a statement about labels: a non-empty local part uses dots
      wrongly exactly when splitting it at its dots leaves an empty label, which is the
      dot-atom rule of section 3.2.3 of RFC 5322. */
  lemma WrongDotUsageMeansEmptyLabel(local: string)
    requires |local| > 0
    ensures WrongDotUsage(local) <==> "" in Fields(local, '.')
  {
    var f := Fields(local, '.');
    LaterEmptyField(local, '.');
    if local[0] == '.' {
      assert f[0] == "";
    } else {
      assert f[0] != "";
    }
    assert "" in f <==> f[0] == "" || exists i :: 1 <= i < |f| && f[i] == "";
  }

  /** A field after the first is empty exactly when some separator is followed by
      another separator or by the end of the text. */
  lemma {:induction false} LaterEmptyField(s: string, sep: char)
    ensures (exists i :: 1 <= i < |Fields(s, sep)| && Fields(s, sep)[i] == "")
        <==> exists k :: 0 <= k < |s| && s[k] == sep && (k + 1 == |s| || s[k + 1] == sep)
  {
    if |s| > 0 {
      var t := Fields(s[1..], sep);
      var f := Fields(s, sep);
      LaterEmptyField(s[1..], sep);
      if s[0] == sep {
        assert forall i :: 1 <= i < |f| ==> f[i] == t[i - 1];
        if |s| > 1 && s[1] != sep {
          assert t[0] != "";
        }
        if exists k :: 0 <= k < |s| && s[k] == sep && (k + 1 == |s| || s[k + 1] == sep) {
          var k :| 0 <= k < |s| && s[k] == sep && (k + 1 == |s| || s[k + 1] == sep);
          if k == 0 {
            assert f[1] == "";
          } else {
            assert s[1..][k - 1] == sep;
            var i :| 1 <= i < |t| && t[i] == "";
            assert f[i + 1] == "";
          }
        }
      } else {
        assert forall i :: 1 <= i < |f| ==> f[i] == t[i];
        if exists k :: 0 <= k < |s| && s[k] == sep && (k + 1 == |s| || s[k + 1] == sep) {
          var k :| 0 <= k < |s| && s[k] == sep && (k + 1 == |s| || s[k + 1] == sep);
          assert s[1..][k - 1] == sep;
        }
      }
    }
  }
}
