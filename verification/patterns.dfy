/** The command table of the receiver and one recognizer per table pattern.

    Every pattern is matched as `/^pattern$/i` against a line read from the client.
    Lines never hold a line feed (the reader splits on it), so `^` and `$` anchor the
    whole line. The class written `[ /t]` is space, slash and the letter t; under the
    case-insensitive flag it also takes `T`. The class `[ \t]` after the colon of
    MAIL FROM and RCPT TO is space and tab. */
module Patterns {
  import opened Wrappers
  import Text

  /** The two character classes of the table. */
  datatype Class = Pad | Blank

  predicate In(cls: Class, c: char) {
    match cls
    case Pad => c == ' ' || c == '/' || c == 't' || c == 'T'
    case Blank => c == ' ' || c == '\t'
  }

  /** Every character of `s` in `[from, to)` belongs to `cls`. */
  ghost predicate AllIn(cls: Class, s: string, from: int, to: int) {
    forall k :: from <= k < to ==> 0 <= k < |s| && In(cls, s[k])
  }

  /** End of the run of `cls` characters that starts at `i`. */
  function Run(cls: Class, s: string, i: nat): (j: nat)
    requires i <= |s|
    ensures i <= j <= |s|
    ensures forall k :: i <= k < j ==> In(cls, s[k])
    ensures j == |s| || !In(cls, s[j])
    decreases |s| - i
  {
    if i == |s| || !In(cls, s[i]) then i else Run(cls, s, i + 1)
  }

  /** The text at offset `i` spells `kw` up to ASCII case. */
  predicate CiEqAt(text: string, i: nat, kw: string)
    requires i + |kw| <= |text|
  {
    forall k :: 0 <= k < |kw| ==> Text.Lower(text[i + k]) == Text.Lower(kw[k])
  }

  /** The five shapes of pattern in the table, each led by `[ /t]*` and a keyword. */
  datatype Pattern =
    | Bare(kw: string)    // [ /t]*KW[ /t]*
    | Rest(kw: string)    // [ /t]*KW(.*)
    | Spaced(kw: string)  // [ /t]*KW[ /t]+(.*)
    | Arg(kw: string)     // [ /t]*KW[ /t]*(.+)
    | Colon(kw: string)   // [ /t]*KW[ /t]*:[ \t]*(.+)
  {
    /** The keyword holds a character outside `[ /t]`, so where it starts is fixed. */
    predicate WellFormed() {
      Run(Pad, kw, 0) < |kw|
    }
  }

  /** The leading `[ /t]*` spans `[0, i)` and the keyword follows at `i`. */
  ghost predicate LeadAt(text: string, kw: string, i: int) {
    && 0 <= i && i + |kw| <= |text|
    && AllIn(Pad, text, 0, i)
    && CiEqAt(text, i, kw)
  }

  /** A match of `[ /t]*KW[ /t]*:[ \t]*(.+)` with the colon at `j` and the group at `g`. */
  ghost predicate ColonAt(text: string, kw: string, i: int, j: int, g: int) {
    && LeadAt(text, kw, i)
    && i + |kw| <= j < g < |text|
    && AllIn(Pad, text, i + |kw|, j)
    && text[j] == ':'
    && AllIn(Blank, text, j + 1, g)
  }

  /** Reference meaning of a pattern: `text` matches it with its capture group starting
      at offset `g` (the group runs to the end of the line; a pattern without a group
      has `g == |text|`, so its capture is empty like Ruby's `nil.to_s`). */
  ghost predicate Parse(p: Pattern, text: string, g: int) {
    match p
    case Bare(kw) => g == |text| && exists i :: LeadAt(text, kw, i) && AllIn(Pad, text, i + |kw|, |text|)
    case Rest(kw) => exists i :: LeadAt(text, kw, i) && g == i + |kw|
    case Spaced(kw) => exists i :: LeadAt(text, kw, i) && i + |kw| < g <= |text| && AllIn(Pad, text, i + |kw|, g)
    case Arg(kw) => exists i :: LeadAt(text, kw, i) && i + |kw| <= g < |text| && AllIn(Pad, text, i + |kw|, g)
    case Colon(kw) => exists i, j :: ColonAt(text, kw, i, j, g)
  }

  /** Where the keyword must start: after the longest `[ /t]` prefix of the line, moved
      back by the `[ /t]` letters the keyword itself starts with. */
  function LeadPos(text: string, kw: string): int {
    Run(Pad, text, 0) - Run(Pad, kw, 0)
  }

  /** Greedy `X*(.+)` from offset `e`: the group starts after the longest run of `cls`,
      giving back one character when the run reaches the end of the line. */
  function Greedy(cls: Class, text: string, e: nat): (r: Option<nat>)
    requires e <= |text|
    ensures r.Some? <==> e < |text|
    ensures r.Some? ==> e <= r.value < |text| && AllIn(cls, text, e, r.value)
    ensures forall g :: e <= g < |text| && AllIn(cls, text, e, g) ==> r.Some? && g <= r.value
  {
    var f := Run(cls, text, e);
    if f < |text| then Some(f) else if f > e then Some(|text| - 1) else None
  }

  /** The recognizer of one pattern: the offset of the capture group, or `None` when
      the line does not match. */
  function Recognize(p: Pattern, text: string): (r: Option<nat>)
    ensures r.Some? ==> r.value <= |text|
  {
    var kw := p.kw;
    var i := LeadPos(text, kw);
    if i < 0 || i + |kw| > |text| || !CiEqAt(text, i, kw) then None
    else
      var e := i + |kw|;
      match p
      case Bare(_) => if Run(Pad, text, e) == |text| then Some(|text|) else None
      case Rest(_) => Some(e)
      case Spaced(_) =>
        var f := Run(Pad, text, e);
        if f > e then Some(f) else None
      case Arg(_) => Greedy(Pad, text, e)
      case Colon(_) =>
        var f := Run(Pad, text, e);
        if f < |text| && text[f] == ':' then Greedy(Blank, text, f + 1) else None
  }

  /** The class `[ /t]` is closed under ASCII case: a keyword letter and the text
      letter it matches are both in it or both outside it. */
  lemma PadIgnoresCase(a: char, b: char)
    requires Text.Lower(a) == Text.Lower(b)
    ensures In(Pad, a) <==> In(Pad, b)
  {
  }

  /** The keyword can start at one offset only. */
  lemma LeadUnique(text: string, kw: string, i: int)
    requires Run(Pad, kw, 0) < |kw|
    requires LeadAt(text, kw, i)
    ensures i == LeadPos(text, kw)
  {
    var q := Run(Pad, kw, 0);
    forall k | 0 <= k < i + q
      ensures In(Pad, text[k])
    {
      if i <= k {
        PadIgnoresCase(text[i + (k - i)], kw[k - i]);
      }
    }
    PadIgnoresCase(text[i + q], kw[q]);
    assert Run(Pad, text, 0) == i + q;
  }

  /** The recognizer agrees with the reference meaning: it matches exactly the lines
      the pattern matches, and its group starts at the largest offset any match allows,
      which is where Ruby's greedy quantifiers leave it. */
  lemma RecognizeMatchesPattern(p: Pattern, text: string)
    requires p.WellFormed()
    ensures Recognize(p, text).Some? <==> exists g :: Parse(p, text, g)
    ensures Recognize(p, text).Some? ==>
      && Parse(p, text, Recognize(p, text).value)
      && forall g :: Parse(p, text, g) ==> g <= Recognize(p, text).value
  {
    var kw := p.kw;
    var i0 := LeadPos(text, kw);
    forall i | LeadAt(text, kw, i)
      ensures i == i0
    {
      LeadUnique(text, kw, i);
    }
    if i0 >= 0 && i0 + |kw| <= |text| && CiEqAt(text, i0, kw) {
      assert LeadAt(text, kw, i0);
      if p.Colon? {
        RecognizeColon(text, kw, i0);
      } else {
        RecognizeOther(p, text, i0);
      }
    }
  }

  /** The same agreement for the patterns without a colon, once the keyword is found. */
  lemma RecognizeOther(p: Pattern, text: string, i0: int)
    requires p.WellFormed() && !p.Colon?
    requires i0 == LeadPos(text, p.kw) && LeadAt(text, p.kw, i0)
    requires forall i :: LeadAt(text, p.kw, i) ==> i == i0
    ensures Recognize(p, text).Some? <==> exists g :: Parse(p, text, g)
    ensures Recognize(p, text).Some? ==>
      && Parse(p, text, Recognize(p, text).value)
      && forall g :: Parse(p, text, g) ==> g <= Recognize(p, text).value
  {
    var e := i0 + |p.kw|;
    match p {
      case Bare(_) =>
        if Run(Pad, text, e) == |text| {
          assert Parse(p, text, |text|);
        }
      case Rest(_) =>
        assert Parse(p, text, e);
      case Spaced(_) =>
        var f := Run(Pad, text, e);
        if f > e {
          assert Parse(p, text, f);
        }
      case Arg(_) =>
        var r := Greedy(Pad, text, e);
        if r.Some? {
          assert Parse(p, text, r.value);
        }
    }
  }

  lemma RecognizeColon(text: string, kw: string, i0: int)
    requires Colon(kw).WellFormed()
    requires i0 == LeadPos(text, kw) && LeadAt(text, kw, i0)
    requires forall i :: LeadAt(text, kw, i) ==> i == i0
    ensures Recognize(Colon(kw), text).Some? <==> exists g :: Parse(Colon(kw), text, g)
    ensures Recognize(Colon(kw), text).Some? ==>
      && Parse(Colon(kw), text, Recognize(Colon(kw), text).value)
      && forall g :: Parse(Colon(kw), text, g) ==> g <= Recognize(Colon(kw), text).value
  {
    var e := i0 + |kw|;
    var f := Run(Pad, text, e);
    forall i, j, g | ColonAt(text, kw, i, j, g)
      ensures i == i0 && j == f
    {
    }
    if f < |text| && text[f] == ':' {
      var r := Greedy(Blank, text, f + 1);
      assert Recognize(Colon(kw), text) == r;
      if r.Some? {
        assert ColonAt(text, kw, i0, f, r.value);
        assert Parse(Colon(kw), text, r.value);
      }
    }
  }

  /** What the handler of a table entry does. */
  datatype Handler =
    | DoQuit | DoSlam | DoTimeout | DoAuth | DoEhlo | DoExpn | DoHelp | DoNoop
    | DoRset | DoVfry | DoStartTls | DoMailFrom | DoRcptTo | DoData

  /** A table entry: the least level at which it is tried, its pattern, its handler. */
  datatype Entry = Entry(minLevel: nat, pattern: Pattern, handler: Handler)

  /** The command table, in the order it is scanned. */
  const Table: seq<Entry> := [
    Entry(0, Bare("QUIT"), DoQuit),
    Entry(0, Bare("SLAM"), DoSlam),
    Entry(0, Bare("TIMEOUT"), DoTimeout),
    Entry(1, Arg("AUTH"), DoAuth),
    Entry(1, Rest("EHLO"), DoEhlo),
    Entry(1, Bare("EXPN"), DoExpn),
    Entry(1, Spaced("HELO"), DoEhlo),
    Entry(1, Bare("HELP"), DoHelp),
    Entry(1, Bare("NOOP"), DoNoop),
    Entry(1, Bare("RSET"), DoRset),
    Entry(1, Bare("TIMEOUT"), DoTimeout),
    Entry(1, Bare("VFRY"), DoVfry),
    Entry(2, Bare("STARTTLS"), DoStartTls),
    Entry(2, Colon("MAIL FROM"), DoMailFrom),
    Entry(3, Colon("RCPT TO"), DoRcptTo),
    Entry(4, Bare("DATA"), DoData)
  ]

  /** The minimum level of each entry, as a formula of its index. */
  function LevelOf(k: nat): nat {
    if k < 3 then 0 else if k < 12 then 1 else if k < 14 then 2 else if k < 15 then 3 else 4
  }

  lemma TableShape()
    ensures |Table| == 16
    ensures forall k :: 0 <= k < |Table| ==> Table[k].minLevel == LevelOf(k)
    ensures forall k :: 0 <= k < |Table| ==> Table[k].pattern.WellFormed()
  {
  }

  /** The scanner found entry `index`, whose capture group starts at `group`. */
  datatype Hit = Hit(index: nat, group: nat)

  /** The dispatch loop: entries are tried in table order, the scan stops at the first
      entry whose minimum level is above the session's level, and the first matching
      entry wins. Because the table is sorted by level, this is the first entry that is
      legal at this level and matches; when there is none, no entry legal at this level
      matches at all. */
  function Scan(level: int, text: string, i: nat): (r: Option<Hit>)
    requires i <= |Table|
    ensures r.Some? ==> && i <= r.value.index < |Table| && r.value.group <= |text|
                        && Table[r.value.index].minLevel <= level
                        && Recognize(Table[r.value.index].pattern, text) == Some(r.value.group)
                        && forall k :: i <= k < r.value.index ==> Recognize(Table[k].pattern, text).None?
    ensures r.None? ==> forall k :: i <= k < |Table| && Table[k].minLevel <= level
                          ==> Recognize(Table[k].pattern, text).None?
    decreases |Table| - i
  {
    TableShape();
    if i == |Table| || Table[i].minLevel > level then None
    else match Recognize(Table[i].pattern, text)
      case Some(g) => Some(Hit(i, g))
      case None => Scan(level, text, i + 1)
  }

  /** A bare command matches its own keyword, with an empty capture. */
  lemma BareMatchesItself(kw: string)
    requires Bare(kw).WellFormed()
    ensures Recognize(Bare(kw), kw) == Some(|kw|)
  {
    assert CiEqAt(kw, 0, kw);
  }

  /** The first three entries: the transport words, legal at every level. */
  lemma TableHead()
    ensures |Table| == 16
    ensures Table[0] == Entry(0, Bare("QUIT"), DoQuit)
    ensures Table[1] == Entry(0, Bare("SLAM"), DoSlam)
    ensures Table[2] == Entry(0, Bare("TIMEOUT"), DoTimeout)
  {
  }

  /** The words `recv_text` substitutes for a closed connection, a reset and a
      timeout reach their handlers at every level, whatever the session has done. */
  lemma QuitRecognized(level: nat)
    ensures Scan(level, "QUIT", 0) == Some(Hit(0, 4))
  {
    TableHead();
    BareMatchesItself("QUIT");
  }

  lemma SlamRecognized(level: nat)
    ensures Scan(level, "SLAM", 0) == Some(Hit(1, 4))
  {
    TableHead();
    BareMatchesItself("SLAM");
    assert Run(Pad, "SLAM", 0) == 0;
    assert Run(Pad, "QUIT", 0) == 0;
    assert !CiEqAt("SLAM", 0, "QUIT") by { assert Text.Lower("SLAM"[0]) != Text.Lower("QUIT"[0]); }
    assert Recognize(Bare("QUIT"), "SLAM") == None;
  }

  lemma TimeoutRecognized(level: nat)
    ensures Scan(level, "TIMEOUT", 0) == Some(Hit(2, 7))
  {
    TableHead();
    BareMatchesItself("TIMEOUT");
    assert Run(Pad, "QUIT", 0) == 0;
    assert Run(Pad, "SLAM", 0) == 0;
    assert Run(Pad, "TIMEOUT", 0) == 1 by { assert Run(Pad, "TIMEOUT", 1) == 1; }
    assert !CiEqAt("TIMEOUT", 1, "QUIT") by { assert Text.Lower("TIMEOUT"[1]) != Text.Lower("QUIT"[0]); }
    assert !CiEqAt("TIMEOUT", 1, "SLAM") by { assert Text.Lower("TIMEOUT"[1]) != Text.Lower("SLAM"[0]); }
    assert Recognize(Bare("QUIT"), "TIMEOUT") == None;
    assert Recognize(Bare("SLAM"), "TIMEOUT") == None;
  }
}
