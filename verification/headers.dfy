/** The header parser of an item of mail. It reads the received lines up to the first
    empty one, joins each header line with the continuation lines (those starting with
    a space or a tab) that follow it, and files every header under a key made from the
    text before its first colon. A header that is followed by another one but has no
    colon makes the parser raise; the headers filed up to then stay in place. */
module Headers {
  import opened Wrappers
  import opened Text

  /** The parser's outcome: the headers, or the headers filed before it raised. */
  datatype Outcome = Parsed(headers: map<string, string>) | Broken(headers: map<string, string>)

  /** A line matching `^[ \t]`: it continues the header before it. */
  predicate IsContinuation(line: string) {
    |line| > 0 && (line[0] == ' ' || line[0] == '\t')
  }

  /** `keyword.downcase.gsub("-", "_")`. */
  function HeaderKey(keyword: string): (key: string)
    ensures |key| == |keyword|
    ensures forall k :: 0 <= k < |key| ==> key[k] != '-' && !('A' <= key[k] <= 'Z')
    ensures forall k :: 0 <= k < |key| ==> key[k] == (if keyword[k] == '-' then '_' else Lower(keyword[k]))
  {
    seq(|keyword|, k requires 0 <= k < |keyword| => if keyword[k] == '-' then '_' else Lower(keyword[k]))
  }

  /** The key a header is filed under. */
  function KeyOf(header: string): string {
    HeaderKey(SplitOnce(header, ':').0)
  }

  /** The value filed for the last header: the stripped text after its first colon, or
      the empty string when it has none. */
  function LastValueOf(header: string): string {
    match SplitOnce(header, ':').1
    case None => ""
    case Some(v) => Strip(v)
  }

  /** Files a header that another header follows; `None` where Ruby calls `strip` on the
      missing value of a header without a colon and raises. */
  function File(header: string, acc: map<string, string>): (r: Option<map<string, string>>)
    ensures r.Some? <==> ':' in header
    ensures r.Some? ==> r.value == acc[KeyOf(header) := LastValueOf(header)]
  {
    match SplitOnce(header, ':').1
    case None => None
    case Some(v) => Some(acc[KeyOf(header) := Strip(v)])
  }

  /** Files the pending header, if any, when the lines run out or an empty line comes. */
  function Finish(header: string, acc: map<string, string>): Outcome {
    if |header| == 0 then Parsed(acc) else Parsed(acc[KeyOf(header) := LastValueOf(header)])
  }

  /** The loop of `parse_headers`, one line at a time, with the pending header and the
      headers filed so far. */
  function Scan(lines: seq<string>, header: string, acc: map<string, string>): Outcome {
    if |lines| == 0 then Finish(header, acc)
    else
      var line := lines[0];
      if IsContinuation(line) then Scan(lines[1..], header + line, acc)
      else if |line| == 0 then Finish(header, acc)
      else if |header| > 0 then
        match File(header, acc)
        case None => Broken(acc)
        case Some(acc') => Scan(lines[1..], line, acc')
      else Scan(lines[1..], line, acc)
  }

  /** `parse_headers` on the received lines, starting from no headers. */
  function ParseHeaders(lines: seq<string>): Outcome {
    Scan(lines, "", map[])
  }

  // The reference reading: take the header section, unfold it, then file the headers.

  /** The header section: the lines before the first empty line. */
  function Section(lines: seq<string>): (b: seq<string>)
    ensures |b| <= |lines| && b == lines[..|b|]
    ensures forall k :: 0 <= k < |b| ==> b[k] != ""
    ensures |b| < |lines| ==> lines[|b|] == ""
  {
    if |lines| == 0 || lines[0] == "" then [] else [lines[0]] + Section(lines[1..])
  }

  /** The first index from `i` on that does not hold a continuation line. */
  function RunEnd(b: seq<string>, i: nat): (n: nat)
    requires i <= |b|
    ensures i <= n <= |b|
    ensures forall k :: i <= k < n ==> IsContinuation(b[k])
    ensures n == |b| || !IsContinuation(b[n])
    decreases |b| - i
  {
    if i == |b| || !IsContinuation(b[i]) then i else RunEnd(b, i + 1)
  }

  /** The lines of `b` one after the other. */
  function Concat(b: seq<string>): string {
    if |b| == 0 then "" else b[0] + Concat(b[1..])
  }

  /** Unfolding: each line with the continuation lines after it becomes one header; a
      run of continuation lines at the very start forms a header of its own. */
  function Unfold(b: seq<string>): (hs: seq<string>)
    ensures |hs| <= |b|
    ensures |b| > 0 ==> |hs| > 0
    ensures (forall k :: 0 <= k < |b| ==> b[k] != "") ==> forall k :: 0 <= k < |hs| ==> hs[k] != ""
    decreases |b|
  {
    if |b| == 0 then []
    else
      var n := RunEnd(b, 1);
      assert Concat(b[..n]) == b[0] + Concat(b[..n][1..]);
      [Concat(b[..n])] + Unfold(b[n..])
  }

  /** Filing the unfolded headers in order: every header but the last needs a colon. */
  function FileAll(hs: seq<string>, acc: map<string, string>): Outcome {
    if |hs| == 0 then Parsed(acc)
    else if |hs| == 1 then Finish(hs[0], acc)
    else
      match File(hs[0], acc)
      case None => Broken(acc)
      case Some(acc') => FileAll(hs[1..], acc')
  }

  /** The line-at-a-time parser is the unfold-then-file reading of the header section. */
  lemma ParseHeadersUnfolds(lines: seq<string>)
    ensures ParseHeaders(lines) == FileAll(Unfold(Section(lines)), map[])
  {
    StopsAtEmptyLine(lines, "", map[]);
    var b := Section(lines);
    if |b| > 0 {
      FirstHeader(b, map[]);
    }
  }

  /** Lines from the first empty line on are never read. */
  lemma {:induction false} StopsAtEmptyLine(lines: seq<string>, header: string, acc: map<string, string>)
    ensures Scan(lines, header, acc) == Scan(Section(lines), header, acc)
  {
    if |lines| > 0 && lines[0] != "" {
      var b := Section(lines);
      assert b[1..] == Section(lines[1..]);
      if IsContinuation(lines[0]) {
        StopsAtEmptyLine(lines[1..], header + lines[0], acc);
      } else if |header| > 0 {
        match File(header, acc)
        case None =>
        case Some(acc') => StopsAtEmptyLine(lines[1..], lines[0], acc');
      } else {
        StopsAtEmptyLine(lines[1..], lines[0], acc);
      }
    }
  }

  /** The headers that follow from a pending header `h` and the lines `b`. */
  function PendingHeaders(h: string, b: seq<string>): seq<string> {
    var n := RunEnd(b, 0);
    [h + Concat(b[..n])] + Unfold(b[n..])
  }

  /** Scanning a header section whose first line is taken as the pending header. */
  lemma {:induction false} FirstHeader(b: seq<string>, acc: map<string, string>)
    requires |b| > 0 && forall k :: 0 <= k < |b| ==> b[k] != ""
    ensures Scan(b, "", acc) == Scan(b[1..], b[0], acc) == FileAll(Unfold(b), acc)
    decreases |b|, 0
  {
    assert "" + b[0] == b[0];
    Pending(b[1..], b[0], acc);
    UnfoldFirst(b);
  }

  /** Scanning with a non-empty pending header `h`: the continuation lines at the head
      of `b` are appended to `h`, and the rest unfolds as usual. */
  lemma {:induction false} Pending(b: seq<string>, h: string, acc: map<string, string>)
    requires |h| > 0 && forall k :: 0 <= k < |b| ==> b[k] != ""
    ensures Scan(b, h, acc) == FileAll(PendingHeaders(h, b), acc)
    decreases |b|, 1
  {
    if |b| == 0 {
      PendingStops(h, b);
    } else if IsContinuation(b[0]) {
      Pending(b[1..], h + b[0], acc);
      PendingContinues(h, b);
    } else {
      PendingStops(h, b);
      var hs := [h] + Unfold(b);
      assert hs[1..] == Unfold(b);
      match File(h, acc)
      case None =>
      case Some(acc') =>
        FirstHeader(b, acc');
    }
  }

  lemma UnfoldFirst(b: seq<string>)
    requires |b| > 0
    ensures Unfold(b) == PendingHeaders(b[0], b[1..])
  {
    var n := RunEnd(b, 1);
    var t := b[1..];
    var m := RunEnd(t, 0);
    RunEndShift(b, 0);
    assert m == n - 1;
    var head := b[..n];
    assert head[1..] == t[..m];
    assert Concat(head) == b[0] + Concat(t[..m]);
    assert t[m..] == b[n..];
  }

  lemma PendingContinues(h: string, b: seq<string>)
    requires |b| > 0 && IsContinuation(b[0])
    ensures PendingHeaders(h, b) == PendingHeaders(h + b[0], b[1..])
  {
    var n := RunEnd(b, 0);
    var t := b[1..];
    var m := RunEnd(t, 0);
    RunEndShift(b, 0);
    assert n == RunEnd(b, 1) && m == n - 1;
    var head := b[..n];
    assert head[1..] == t[..m];
    assert Concat(head) == b[0] + Concat(t[..m]);
    assert t[m..] == b[n..];
    assert (h + b[0]) + Concat(t[..m]) == h + Concat(head);
  }

  lemma PendingStops(h: string, b: seq<string>)
    requires |b| == 0 || !IsContinuation(b[0])
    ensures PendingHeaders(h, b) == [h] + Unfold(b)
  {
    assert b[..0] == [] && h + "" == h && b[0..] == b;
  }

  /** `RunEnd` on a suffix is `RunEnd` on the whole shifted by one. */
  lemma {:induction false} RunEndShift(b: seq<string>, i: nat)
    requires |b| > 0 && i < |b|
    ensures RunEnd(b[1..], i) == RunEnd(b, i + 1) - 1
    decreases |b| - i
  {
    if i + 1 < |b| && IsContinuation(b[i + 1]) {
      RunEndShift(b, i + 1);
    }
  }

  /** Lines after an empty line do not change the headers. */
  lemma IgnoresBody(head: seq<string>, body: seq<string>)
    ensures ParseHeaders(head + [""] + body) == ParseHeaders(head + [""])
  {
    SectionBeforeEmptyLine(head, body);
    SectionBeforeEmptyLine(head, []);
    StopsAtEmptyLine(head + [""] + body, "", map[]);
    StopsAtEmptyLine(head + [""], "", map[]);
  }

  lemma {:induction false} SectionBeforeEmptyLine(head: seq<string>, body: seq<string>)
    ensures Section(head + [""] + body) == Section(head + [""])
  {
    if |head| > 0 && head[0] != "" {
      SectionBeforeEmptyLine(head[1..], body);
      assert (head + [""] + body)[1..] == head[1..] + [""] + body;
      assert (head + [""])[1..] == head[1..] + [""];
    }
  }

  /** The keys of a list of headers. */
  function KeysOf(hs: seq<string>): set<string> {
    set k | 0 <= k < |hs| :: KeyOf(hs[k])
  }

  lemma KeysOfCons(hs: seq<string>)
    requires |hs| > 0
    ensures KeysOf(hs) == {KeyOf(hs[0])} + KeysOf(hs[1..])
  {
    var tail := hs[1..];
    forall x | x in KeysOf(hs)
      ensures x in {KeyOf(hs[0])} + KeysOf(tail)
    {
      var k :| 0 <= k < |hs| && KeyOf(hs[k]) == x;
      if k > 0 {
        assert KeyOf(tail[k - 1]) == x;
      }
    }
    forall x | x in KeysOf(tail)
      ensures x in KeysOf(hs)
    {
      var k :| 0 <= k < |tail| && KeyOf(tail[k]) == x;
      assert KeyOf(hs[k + 1]) == x;
    }
  }

  /** Filing succeeds exactly when every header but the last has a colon. */
  lemma {:induction false} FileAllSucceeds(hs: seq<string>, acc: map<string, string>)
    ensures FileAll(hs, acc).Parsed? <==> forall k :: 0 <= k < |hs| - 1 ==> ':' in hs[k]
  {
    if |hs| > 1 {
      var tail := hs[1..];
      assert forall k :: 0 <= k < |tail| ==> tail[k] == hs[k + 1];
      match File(hs[0], acc)
      case None =>
      case Some(acc') =>
        FileAllSucceeds(tail, acc');
    }
  }

  /** When filing succeeds, the keys are those of the headers filed. */
  lemma {:induction false} FileAllKeys(hs: seq<string>, acc: map<string, string>)
    requires |hs| > 0 ==> hs[|hs| - 1] != ""
    ensures FileAll(hs, acc).Parsed? ==> FileAll(hs, acc).headers.Keys == acc.Keys + KeysOf(hs)
  {
    if |hs| == 1 {
      assert FileAll(hs, acc) == Finish(hs[0], acc);
      assert KeysOf(hs) == {KeyOf(hs[0])};
    } else if |hs| > 1 {
      KeysOfCons(hs);
      var tail := hs[1..];
      assert tail[|tail| - 1] == hs[|hs| - 1];
      match File(hs[0], acc)
      case None =>
        assert FileAll(hs, acc) == Broken(acc);
      case Some(acc') =>
        assert FileAll(hs, acc) == FileAll(tail, acc');
        FileAllKeys(tail, acc');
    }
  }

  /** When filing succeeds, the last header's value is in place. */
  lemma {:induction false} FileAllLast(hs: seq<string>, acc: map<string, string>)
    requires |hs| > 0 && hs[|hs| - 1] != ""
    ensures FileAll(hs, acc).Parsed? ==> KeyOf(hs[|hs| - 1]) in FileAll(hs, acc).headers
    ensures FileAll(hs, acc).Parsed? ==>
      FileAll(hs, acc).headers[KeyOf(hs[|hs| - 1])] == LastValueOf(hs[|hs| - 1])
  {
    if |hs| == 1 {
      assert FileAll(hs, acc) == Finish(hs[0], acc);
    } else {
      var tail := hs[1..];
      assert tail[|tail| - 1] == hs[|hs| - 1];
      match File(hs[0], acc)
      case None =>
        assert FileAll(hs, acc) == Broken(acc);
      case Some(acc') =>
        assert FileAll(hs, acc) == FileAll(tail, acc');
        FileAllLast(tail, acc');
    }
  }

  /** Filing headers whose keys all differ from `key` leaves its value alone. */
  lemma {:induction false} FileAllKeeps(hs: seq<string>, acc: map<string, string>, key: string)
    requires key in acc
    requires forall k :: 0 <= k < |hs| ==> KeyOf(hs[k]) != key
    ensures FileAll(hs, acc).Parsed? ==> key in FileAll(hs, acc).headers
    ensures FileAll(hs, acc).Parsed? ==> FileAll(hs, acc).headers[key] == acc[key]
  {
    if |hs| == 1 {
      assert FileAll(hs, acc) == Finish(hs[0], acc);
    } else if |hs| > 1 {
      var tail := hs[1..];
      assert forall k :: 0 <= k < |tail| ==> tail[k] == hs[k + 1];
      match File(hs[0], acc)
      case None =>
        assert FileAll(hs, acc) == Broken(acc);
      case Some(acc') =>
        assert FileAll(hs, acc) == FileAll(tail, acc');
        FileAllKeeps(tail, acc', key);
    }
  }

  /** When filing succeeds, each key holds the value of the last header filed under it:
      a later header with the same key overwrites an earlier one. */
  lemma {:induction false} FileAllLatest(hs: seq<string>, acc: map<string, string>, j: nat)
    requires |hs| > 0 && hs[|hs| - 1] != ""
    requires j < |hs| && forall k :: j < k < |hs| ==> KeyOf(hs[k]) != KeyOf(hs[j])
    ensures FileAll(hs, acc).Parsed? ==> KeyOf(hs[j]) in FileAll(hs, acc).headers
    ensures FileAll(hs, acc).Parsed? ==> FileAll(hs, acc).headers[KeyOf(hs[j])] == LastValueOf(hs[j])
  {
    if j == |hs| - 1 {
      FileAllLast(hs, acc);
    } else if j == 0 {
      FileAllFirst(hs, acc);
    } else {
      var tail := hs[1..];
      assert tail[|tail| - 1] == hs[|hs| - 1];
      assert tail[j - 1] == hs[j];
      forall k | j - 1 < k < |tail|
        ensures KeyOf(tail[k]) != KeyOf(tail[j - 1])
      {
        assert tail[k] == hs[k + 1];
      }
      FileAllStep(hs, acc);
      if File(hs[0], acc).Some? {
        FileAllLatest(tail, File(hs[0], acc).value, j - 1);
      }
    }
  }

  /** One step of filing several headers: the first one is filed, then the rest. */
  lemma FileAllStep(hs: seq<string>, acc: map<string, string>)
    requires |hs| > 1
    ensures File(hs[0], acc).None? ==> FileAll(hs, acc) == Broken(acc)
    ensures File(hs[0], acc).Some? ==> FileAll(hs, acc) == FileAll(hs[1..], File(hs[0], acc).value)
  {
  }

  /** The first of several headers keeps its value when no later one shares its key. */
  lemma FileAllFirst(hs: seq<string>, acc: map<string, string>)
    requires |hs| > 1 && forall k :: 0 < k < |hs| ==> KeyOf(hs[k]) != KeyOf(hs[0])
    ensures FileAll(hs, acc).Parsed? ==> KeyOf(hs[0]) in FileAll(hs, acc).headers
    ensures FileAll(hs, acc).Parsed? ==> FileAll(hs, acc).headers[KeyOf(hs[0])] == LastValueOf(hs[0])
  {
    var tail := hs[1..];
    forall k | 0 <= k < |tail|
      ensures KeyOf(tail[k]) != KeyOf(hs[0])
    {
      assert tail[k] == hs[k + 1];
    }
    match File(hs[0], acc)
    case None =>
      assert FileAll(hs, acc) == Broken(acc);
    case Some(acc') =>
      assert FileAll(hs, acc) == FileAll(tail, acc');
      FileAllKeeps(tail, acc', KeyOf(hs[0]));
  }

  /** In a successful `parse_headers`, the key of an unfolded header that no later
      header shares holds that header's value. */
  lemma HeadersLatestValue(lines: seq<string>, j: nat)
    requires var hs := Unfold(Section(lines));
      j < |hs| && forall k :: j < k < |hs| ==> KeyOf(hs[k]) != KeyOf(hs[j])
    ensures var hs := Unfold(Section(lines));
      ParseHeaders(lines).Parsed? ==>
        && KeyOf(hs[j]) in ParseHeaders(lines).headers
        && ParseHeaders(lines).headers[KeyOf(hs[j])] == LastValueOf(hs[j])
  {
    ParseHeadersUnfolds(lines);
    FileAllLatest(Unfold(Section(lines)), map[], j);
  }

  /** `parse_headers` succeeds exactly when every unfolded header but the last has a
      colon; its keys are then the keys of all the unfolded headers, and the last header
      holds the value read from it. */
  lemma HeadersOutcome(lines: seq<string>)
    ensures var hs := Unfold(Section(lines));
      && (ParseHeaders(lines).Parsed? <==> forall k :: 0 <= k < |hs| - 1 ==> ':' in hs[k])
      && (ParseHeaders(lines).Parsed? ==> ParseHeaders(lines).headers.Keys == KeysOf(hs))
      && (ParseHeaders(lines).Parsed? && |hs| > 0 ==>
            ParseHeaders(lines).headers[KeyOf(hs[|hs| - 1])] == LastValueOf(hs[|hs| - 1]))
  {
    ParseHeadersUnfolds(lines);
    FileAllSucceeds(Unfold(Section(lines)), map[]);
    var hs := Unfold(Section(lines));
    FileAllKeys(hs, map[]);
    if |hs| > 0 {
      FileAllLast(hs, map[]);
    }
  }
}
