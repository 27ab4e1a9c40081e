/**
 The hash-chained audit log: its line verifier, the append path with its crash points,
 archiving, and the recursion of verification through linked archives.

 Digests are values of two functions the environment supplies: one over the unsigned
 part of an event, one over a whole file. Only tamper evidence needs them injective.
 */
module AuditLog {
  import opened Wrappers

  type Hash = string
  type Name = nat

  const CHAIN_VERSION: nat := 1
  const MAX_U64: nat := 0xffff_ffff_ffff_ffff
  const MAX_ARCHIVE_DEPTH: nat := 64
  const GENESIS: Hash := "0000000000000000" + "0000000000000000" + "0000000000000000" + "0000000000000000"

  // ---- events, lines and files ---------------------------------------------------------

  /** A JSON field: absent, present with an unusable value, or usable. */
  datatype Slot<+T> = Missing | Unusable | Has(value: T)

  datatype Kind = ChainKind | LegacyKind | TornKind | QuarantinedKind | InvalidKind | UnknownKind(text: string)

  /** What the first event of a chain says about the log it replaced. */
  datatype Link = NoLink | BadLink | LinkTo(name: Name, sha: Hash, kind: Kind)

  datatype Entry = Entry(payload: string, link: Link)

  /** Everything the event hash covers. */
  datatype Unsigned = Unsigned(
    version: Slot<nat>, chainId: Slot<string>, sequence: Slot<nat>, prev: Slot<Hash>, entry: Entry)

  datatype Event = Event(unsigned: Unsigned, thisHash: Slot<Hash>)

  /** A physical line: empty, white space, unparsable, not even UTF-8, JSON but no object, or an object. */
  datatype Line =
    Blank | Spaces | Garbled(text: string) | NotUtf8 | NotObject(text: string) | Object(event: Event)

  /** `terminated` says whether the last line ends in a newline. */
  datatype File = File(lines: seq<Line>, terminated: bool)

  datatype Head = Head(version: nat, chainId: string, sequence: nat, thisHash: Hash)

  datatype HeadFile = Unreadable | HeadIs(head: Head)

  datatype Store = Store(log: Option<File>, head: Option<HeadFile>, archives: map<Name, File>)

  datatype Hashes = Hashes(event: Unsigned -> Hash, file: File -> Hash)

  predicate HasChainField(e: Event) {
    || !e.unsigned.version.Missing? || !e.unsigned.chainId.Missing? || !e.unsigned.sequence.Missing?
    || !e.unsigned.prev.Missing? || !e.thisHash.Missing?
  }

  // ---- one event -------------------------------------------------------------------------

  datatype Tip = Tip(chainId: string, sequence: nat, prev: Hash, thisHash: Hash)

  function ParseTip(hs: Hashes, e: Event): Option<Tip> {
    var u := e.unsigned;
    if u.version != Has(CHAIN_VERSION) then None
    else if !u.chainId.Has? then None
    else if !u.sequence.Has? || u.sequence.value == 0 || u.sequence.value > MAX_U64 then None
    else if !u.prev.Has? then None
    else if !e.thisHash.Has? then None
    else if e.thisHash.value != hs.event(u) then None
    else if u.sequence.value == 1 && u.prev.value != GENESIS then None
    else Some(Tip(u.chainId.value, u.sequence.value, u.prev.value, e.thisHash.value))
  }

  function LineTip(hs: Hashes, l: Line): Option<Tip> {
    if l.Object? then ParseTip(hs, l.event) else None
  }

  function Signed(hs: Hashes, entry: Entry, chainId: string, sequence: nat, prev: Hash): Event {
    var u := Unsigned(Has(CHAIN_VERSION), Has(chainId), Has(sequence), Has(prev), entry);
    Event(u, Has(hs.event(u)))
  }

  lemma SignedParses(hs: Hashes, entry: Entry, chainId: string, sequence: nat, prev: Hash)
    requires 0 < sequence <= MAX_U64 && (sequence == 1 ==> prev == GENESIS)
    ensures var e := Signed(hs, entry, chainId, sequence, prev);
            && HasChainField(e)
            && ParseTip(hs, e) == Some(Tip(chainId, sequence, prev, e.thisHash.value))
  {
  }

  // ---- verifying the lines of one file -------------------------------------------------------

  datatype Report = Report(
    valid: bool, events: nat, chainId: Option<string>, firstHash: Option<Hash>,
    lastHash: Option<Hash>, lastPrev: Option<Hash>, lastSequence: Option<nat>)

  datatype Scan = Scan(report: Report, expectedPrevious: Hash, expectedSequence: nat)

  const EMPTY_REPORT := Report(true, 0, None, None, None, None, None)

  predicate Skipped(l: Line) {
    l.Blank? || l.Spaces?
  }

  /** One turn of the verifier's loop. */
  function ScanLine(hs: Hashes, s: Scan, l: Line): Scan {
    if Skipped(l) then s
    else
      var r := s.report.(events := s.report.events + 1);
      match LineTip(hs, l)
      case None => s.(report := r.(valid := false))
      case Some(tip) =>
        var ok := && tip.sequence == s.expectedSequence
                  && tip.prev == s.expectedPrevious
                  && (r.chainId.Some? ==> r.chainId.value == tip.chainId);
        Scan(
          r.(valid := r.valid && ok,
             chainId := if r.chainId.None? then Some(tip.chainId) else r.chainId,
             firstHash := if r.firstHash.None? then Some(tip.thisHash) else r.firstHash,
             lastHash := Some(tip.thisHash), lastPrev := Some(tip.prev), lastSequence := Some(tip.sequence)),
          tip.thisHash,
          if s.expectedSequence < MAX_U64 then s.expectedSequence + 1 else MAX_U64)
  }

  function ScanLines(hs: Hashes, lines: seq<Line>): Scan {
    if |lines| == 0 then Scan(EMPTY_REPORT, GENESIS, 1)
    else ScanLine(hs, ScanLines(hs, lines[..|lines| - 1]), lines[|lines| - 1])
  }

  /** Newlines are single bytes, so a file is UTF-8 when each of its lines is. */
  predicate Utf8(lines: seq<Line>) {
    NotUtf8 !in lines
  }

  const NOT_UTF8_REPORT := Report(false, 0, None, None, None, None, None)

  /** The verifier reads a file that is not UTF-8 no further. */
  function ReportOf(hs: Hashes, lines: seq<Line>): Report {
    if Utf8(lines) then ScanLines(hs, lines).report else NOT_UTF8_REPORT
  }

  /** The verifier's loop, updating its expectations and its report field by field. */
  method VerifyChainBytes(hs: Hashes, lines: seq<Line>) returns (report: Report)
    ensures report == ReportOf(hs, lines)
    ensures report.valid <==> IsChain(hs, Events(lines))
  {
    ReportMeaning(hs, lines);
    if !Utf8(lines) {
      return NOT_UTF8_REPORT;
    }
    var valid, events := true, 0;
    var chainId: Option<string>, firstHash: Option<Hash> := None, None;
    var lastHash: Option<Hash>, lastPrev: Option<Hash>, lastSequence: Option<nat> := None, None, None;
    var expectedPrevious, expectedSequence := GENESIS, 1;
    var index := 0;
    while index < |lines|
      invariant 0 <= index <= |lines| && expectedSequence <= MAX_U64
      invariant Scan(Report(valid, events, chainId, firstHash, lastHash, lastPrev, lastSequence),
                     expectedPrevious, expectedSequence) == ScanLines(hs, lines[..index])
    {
      assert lines[..index + 1][..index] == lines[..index];
      var line := lines[index];
      index := index + 1;
      ghost var before := ScanLines(hs, lines[..index - 1]);
      assert ScanLines(hs, lines[..index]) == ScanLine(hs, before, line);
      if Skipped(line) {
        continue;
      }
      events := events + 1;
      if !line.Object? {
        valid := false;
        continue;
      }
      var parsed := ParseTip(hs, line.event);
      if parsed.None? {
        valid := false;
        continue;
      }
      var tip := parsed.value;
      if tip.sequence != expectedSequence {
        valid := false;
      }
      if tip.prev != expectedPrevious {
        valid := false;
      }
      if chainId.None? {
        chainId := Some(tip.chainId);
      } else if chainId.value != tip.chainId {
        valid := false;
      }
      if firstHash.None? {
        firstHash := Some(tip.thisHash);
      }
      expectedPrevious := tip.thisHash;
      if expectedSequence < MAX_U64 {
        expectedSequence := expectedSequence + 1;
      }
      lastHash := Some(tip.thisHash);
      lastPrev := Some(tip.prev);
      lastSequence := Some(tip.sequence);
    }
    assert lines[..index] == lines;
    report := Report(valid, events, chainId, firstHash, lastHash, lastPrev, lastSequence);
  }

  // ---- what the loop accepts ------------------------------------------------------------------

  /** The lines that count, in order. */
  function Events(lines: seq<Line>): (es: seq<Line>)
    ensures forall i :: 0 <= i < |es| ==> !Skipped(es[i])
  {
    if |lines| == 0 then []
    else
      var init := Events(lines[..|lines| - 1]);
      if Skipped(lines[|lines| - 1]) then init else init + [lines[|lines| - 1]]
  }

  function SequenceAt(i: nat): nat {
    if i < MAX_U64 then i + 1 else MAX_U64
  }

  /** Line i is numbered i + 1, links to line i - 1 and carries the chain id of line 0. */
  predicate LinkedAt(hs: Hashes, es: seq<Line>, i: nat)
    requires i < |es|
    requires forall k :: 0 <= k < |es| ==> LineTip(hs, es[k]).Some?
  {
    && LineTip(hs, es[i]).value.sequence == SequenceAt(i)
    && LineTip(hs, es[i]).value.prev == (if i == 0 then GENESIS else LineTip(hs, es[i - 1]).value.thisHash)
    && LineTip(hs, es[i]).value.chainId == LineTip(hs, es[0]).value.chainId
  }

  /** Every line is a signed event, numbered from one, linked to its predecessor, of one chain id. */
  predicate IsChain(hs: Hashes, es: seq<Line>) {
    && (forall i :: 0 <= i < |es| ==> LineTip(hs, es[i]).Some?)
    && (forall i :: 0 <= i < |es| ==> LinkedAt(hs, es, i))
  }

  function ChainReport(n: nat, first: Tip, last: Tip): Report {
    Report(true, n, Some(first.chainId), Some(first.thisHash),
           Some(last.thisHash), Some(last.prev), Some(last.sequence))
  }

  ghost predicate ScanDescribes(hs: Hashes, s: Scan, es: seq<Line>) {
    && s.report.events == |es|
    && (s.report.valid <==> IsChain(hs, es))
    && (s.report.valid && |es| == 0 ==> s == Scan(EMPTY_REPORT, GENESIS, 1))
    && (s.report.valid && |es| > 0 ==>
          && s.expectedSequence == SequenceAt(|es|)
          && s.expectedPrevious == LineTip(hs, es[|es| - 1]).value.thisHash
          && s.report == ChainReport(|es|, LineTip(hs, es[0]).value, LineTip(hs, es[|es| - 1]).value))
  }

  lemma {:induction false} ScanMeaning(hs: Hashes, lines: seq<Line>)
    ensures ScanDescribes(hs, ScanLines(hs, lines), Events(lines))
  {
    if |lines| > 0 {
      var init, l := lines[..|lines| - 1], lines[|lines| - 1];
      ScanMeaning(hs, init);
      if !Skipped(l) {
        ScanStepMeaning(hs, ScanLines(hs, init), Events(init), l);
      }
    }
  }

  /** A valid report is the scan's, and it is valid exactly for a chain. */
  lemma ReportMeaning(hs: Hashes, lines: seq<Line>)
    ensures ReportOf(hs, lines).valid <==> IsChain(hs, Events(lines))
    ensures ReportOf(hs, lines).valid ==> ReportOf(hs, lines) == ScanLines(hs, lines).report
    ensures ScanDescribes(hs, ScanLines(hs, lines), Events(lines))
  {
    ScanMeaning(hs, lines);
    if !Utf8(lines) {
      NotUtf8Counts(lines);
      var i :| 0 <= i < |Events(lines)| && Events(lines)[i] == NotUtf8;
      assert LineTip(hs, Events(lines)[i]).None?;
    }
  }

  lemma {:induction false} NotUtf8Counts(lines: seq<Line>)
    requires !Utf8(lines)
    ensures exists i :: 0 <= i < |Events(lines)| && Events(lines)[i] == NotUtf8
  {
    var n := |lines| - 1;
    if lines[n] == NotUtf8 {
      assert Events(lines)[|Events(lines)| - 1] == NotUtf8;
    } else {
      NotUtf8Counts(lines[..n]);
      var i :| 0 <= i < |Events(lines[..n])| && Events(lines[..n])[i] == NotUtf8;
      assert Events(lines)[i] == NotUtf8;
    }
  }

  lemma ScanStepMeaning(hs: Hashes, s: Scan, es: seq<Line>, l: Line)
    requires ScanDescribes(hs, s, es) && !Skipped(l)
    ensures ScanDescribes(hs, ScanLine(hs, s, l), es + [l])
  {
    var all := es + [l];
    var t := ScanLine(hs, s, l);
    if IsChain(hs, all) {
      ChainPrefix(hs, all, |es|);
      assert all[..|es|] == es;
      assert LinkedAt(hs, all, |es|);
      assert LineTip(hs, all[|es|]).Some?;
    }
    if t.report.valid {
      ChainExtend(hs, es, l);
    }
  }

  lemma ChainExtend(hs: Hashes, es: seq<Line>, l: Line)
    requires IsChain(hs, es) && LineTip(hs, l).Some?
    requires LinkedAt(hs, es + [l], |es|)
    ensures IsChain(hs, es + [l])
  {
    var all := es + [l];
    forall i | 0 <= i < |all|
      ensures LinkedAt(hs, all, i)
    {
      if i < |es| {
        assert LinkedAt(hs, es, i);
      }
    }
  }

  lemma ChainPrefix(hs: Hashes, es: seq<Line>, n: nat)
    requires IsChain(hs, es) && n <= |es|
    ensures IsChain(hs, es[..n])
  {
    forall i | 0 <= i < n
      ensures LinkedAt(hs, es[..n], i)
    {
      assert LinkedAt(hs, es, i);
    }
  }

  // ---- tamper evidence ------------------------------------------------------------------------

  ghost predicate InjectiveOnEvents(hs: Hashes) {
    forall a, b :: hs.event(a) == hs.event(b) ==> a == b
  }

  ghost predicate InjectiveOnFiles(hs: Hashes) {
    forall a, b :: hs.file(a) == hs.file(b) ==> a == b
  }

  function LastHash(hs: Hashes, es: seq<Line>): Hash
    requires |es| > 0 && LineTip(hs, es[|es| - 1]).Some?
  {
    LineTip(hs, es[|es| - 1]).value.thisHash
  }

  /** Two accepted chains ending in the same hash are the same, event by event. */
  lemma {:induction false} SameTipSameChain(hs: Hashes, a: seq<Line>, b: seq<Line>)
    requires InjectiveOnEvents(hs)
    requires IsChain(hs, a) && IsChain(hs, b)
    requires 0 < |a| <= MAX_U64 && 0 < |b| <= MAX_U64
    requires LastHash(hs, a) == LastHash(hs, b)
    ensures a == b
    decreases |a|
  {
    var m := |a| - 1;
    SameTipSameEnd(hs, a, b);
    hide IsChain, LineTip;
    if m > 0 {
      ChainPrefix(hs, a, m);
      ChainPrefix(hs, b, m);
      SameTipSameChain(hs, a[..m], b[..m]);
    }
    assert a == a[..m] + [a[m]] && b == b[..m] + [b[m]];
  }

  /** Equal last hashes give equal lengths, equal last lines and equal hashes one line earlier. */
  lemma SameTipSameEnd(hs: Hashes, a: seq<Line>, b: seq<Line>)
    requires InjectiveOnEvents(hs)
    requires IsChain(hs, a) && IsChain(hs, b)
    requires 0 < |a| <= MAX_U64 && 0 < |b| <= MAX_U64
    requires LastHash(hs, a) == LastHash(hs, b)
    ensures |a| == |b| && a[|a| - 1] == b[|a| - 1]
    ensures |a| > 1 ==>
      && LineTip(hs, a[|a| - 2]).Some? && LineTip(hs, b[|a| - 2]).Some?
      && LastHash(hs, a[..|a| - 1]) == LastHash(hs, b[..|a| - 1])
  {
    SameHashSameLine(hs, a[|a| - 1], b[|b| - 1]);
    assert LinkedAt(hs, a, |a| - 1) && LinkedAt(hs, b, |b| - 1);
    hide ParseTip;
  }

  lemma SameHashSameLine(hs: Hashes, x: Line, y: Line)
    requires InjectiveOnEvents(hs)
    requires LineTip(hs, x).Some? && LineTip(hs, y).Some?
    requires LineTip(hs, x).value.thisHash == LineTip(hs, y).value.thisHash
    ensures x == y
  {
    assert hs.event(x.event.unsigned) == hs.event(y.event.unsigned);
  }

  // ---- verifying a store ------------------------------------------------------------------------

  /** Only objects, at least one, and none of them chained. */
  predicate WhollyLegacy(lines: seq<Line>) {
    && (exists i :: 0 <= i < |lines| && !Skipped(lines[i]))
    && (forall i :: 0 <= i < |lines| && !Skipped(lines[i]) ==>
          lines[i].Object? && !HasChainField(lines[i].event))
  }

  /** The archive link carried by the first line that counts, if the file can be read as text. */
  function FirstLink(lines: seq<Line>): Link {
    var es := Events(lines);
    if Utf8(lines) && |es| > 0 && es[0].Object? then es[0].event.unsigned.entry.link else NoLink
  }

  predicate AcceptedKind(k: Kind) {
    k == LegacyKind || k == TornKind || k == QuarantinedKind
  }

  predicate LinkValid(hs: Hashes, archives: map<Name, File>, link: Link, depth: nat, visited: set<Name>)
    decreases if depth <= MAX_ARCHIVE_DEPTH then MAX_ARCHIVE_DEPTH + 1 - depth else 0, 0
  {
    match link
    case NoLink => true
    case BadLink => false
    case LinkTo(name, sha, kind) =>
      && name in archives
      && hs.file(archives[name]) == sha
      && (AcceptedKind(kind)
          || (kind == ChainKind && depth < MAX_ARCHIVE_DEPTH
              && ArchiveValid(hs, archives, name, depth + 1, visited)))
  }

  /** A linked chain archive verified in its turn, refusing cycles and excessive depth. */
  predicate ArchiveValid(hs: Hashes, archives: map<Name, File>, name: Name, depth: nat, visited: set<Name>)
    requires name in archives
    decreases if depth <= MAX_ARCHIVE_DEPTH then MAX_ARCHIVE_DEPTH + 1 - depth else 0, 1
  {
    var lines := archives[name].lines;
    && depth <= MAX_ARCHIVE_DEPTH
    && name !in visited
    && !WhollyLegacy(lines)
    && ReportOf(hs, lines).valid
    && LinkValid(hs, archives, FirstLink(lines), depth, visited + {name})
  }

  /** The head file names the last event, or the one before it. */
  predicate HeadMatches(r: Report, head: Option<HeadFile>) {
    if r.events == 0 then head == None
    else
      && head.Some? && head.value.HeadIs?
      && r.chainId.Some? && r.lastSequence.Some? && r.lastHash.Some? && r.lastPrev.Some?
      && var h := head.value.head;
         && h.version == CHAIN_VERSION && h.chainId == r.chainId.value
         && (|| (h.sequence == r.lastSequence.value && h.thisHash == r.lastHash.value)
             || (h.sequence + 1 == r.lastSequence.value && h.thisHash == r.lastPrev.value))
  }

  /** What `verify` reports for the whole store. */
  predicate Verifies(hs: Hashes, s: Store) {
    match s.log
    case None => s.head == None
    case Some(f) =>
      && !WhollyLegacy(f.lines)
      && ReportOf(hs, f.lines).valid
      && LinkValid(hs, s.archives, FirstLink(f.lines), 0, {})
      && HeadMatches(ReportOf(hs, f.lines), s.head)
  }

  // ---- the history a store vouches for -----------------------------------------------------------

  /** The files reached from a link, newest first. */
  function History(archives: map<Name, File>, link: Link, depth: nat): seq<File>
    decreases if depth <= MAX_ARCHIVE_DEPTH then MAX_ARCHIVE_DEPTH + 1 - depth else 0
  {
    if !link.LinkTo? || link.name !in archives then []
    else
      var f := archives[link.name];
      [f] + if link.kind == ChainKind && depth < MAX_ARCHIVE_DEPTH
            then History(archives, FirstLink(f.lines), depth + 1) else []
  }

  lemma {:induction false} SameLinkSameHistory(
    hs: Hashes, a: map<Name, File>, b: map<Name, File>, link: Link, depth: nat, va: set<Name>, vb: set<Name>)
    requires InjectiveOnFiles(hs)
    requires LinkValid(hs, a, link, depth, va) && LinkValid(hs, b, link, depth, vb)
    ensures History(a, link, depth) == History(b, link, depth)
    decreases if depth <= MAX_ARCHIVE_DEPTH then MAX_ARCHIVE_DEPTH + 1 - depth else 0
  {
    if link.LinkTo? {
      assert a[link.name] == b[link.name];
      if link.kind == ChainKind && depth < MAX_ARCHIVE_DEPTH {
        var next := FirstLink(a[link.name].lines);
        SameLinkSameHistory(hs, a, b, next, depth + 1, va + {link.name}, vb + {link.name});
      }
    }
  }

  /** Two stores that verify and end in the same hash hold the same log and the same archives behind it. */
  lemma TamperEvidence(hs: Hashes, s: Store, t: Store)
    requires InjectiveOnEvents(hs) && InjectiveOnFiles(hs)
    requires s.log.Some? && t.log.Some? && Verifies(hs, s) && Verifies(hs, t)
    requires 0 < |Events(s.log.value.lines)| <= MAX_U64 && 0 < |Events(t.log.value.lines)| <= MAX_U64
    requires ReportOf(hs, s.log.value.lines).lastHash == ReportOf(hs, t.log.value.lines).lastHash
    ensures Events(s.log.value.lines) == Events(t.log.value.lines)
    ensures History(s.archives, FirstLink(s.log.value.lines), 0) == History(t.archives, FirstLink(t.log.value.lines), 0)
  {
    ReportMeaning(hs, s.log.value.lines);
    ReportMeaning(hs, t.log.value.lines);
    SameTipSameChain(hs, Events(s.log.value.lines), Events(t.log.value.lines));
    SameLinkSameHistory(hs, s.archives, t.archives, FirstLink(s.log.value.lines), 0, {}, {});
  }

  // ---- appending --------------------------------------------------------------------------------

  /** Where a process may die inside one append; a line may tear between two characters or inside one. */
  datatype Crash = Completed | BeforeWrite | TornLine(text: string) | TornCharacter | NoNewline | BeforeHead

  /** The last line the tail reader sees: it strips line ends only, so white space counts. */
  function TailLine(lines: seq<Line>): Option<Line> {
    if |lines| == 0 then None
    else if lines[|lines| - 1].Blank? then TailLine(lines[..|lines| - 1])
    else Some(lines[|lines| - 1])
  }

  /** Everything before that line; None when it is the first. */
  function PrefixBeforeTail(lines: seq<Line>): Option<seq<Line>> {
    if |lines| == 0 then None
    else if lines[|lines| - 1].Blank? then PrefixBeforeTail(lines[..|lines| - 1])
    else if |lines| == 1 then None
    else Some(lines[..|lines| - 1])
  }

  predicate HasValidPrefixAndHead(hs: Hashes, lines: seq<Line>, head: Option<HeadFile>) {
    match PrefixBeforeTail(lines)
    case None => false
    case Some(prefix) =>
      var r := ReportOf(hs, prefix);
      r.valid && r.events > 0 && HeadMatches(r, head)
  }

  /** Bytes written after an unterminated line continue that line. */
  function WriteLine(f: File, l: Line): seq<Line> {
    if f.terminated || |f.lines| == 0 then f.lines + [l]
    else
      var last := f.lines[|f.lines| - 1];
      f.lines[..|f.lines| - 1]
      + [if Skipped(last) then l else if last.NotUtf8? || l.NotUtf8? then NotUtf8 else Garbled("glued")]
  }

  function HeadFor(e: Event): Option<HeadFile>
    requires e.unsigned.chainId.Has? && e.unsigned.sequence.Has? && e.thisHash.Has?
  {
    Some(HeadIs(Head(CHAIN_VERSION, e.unsigned.chainId.value, e.unsigned.sequence.value, e.thisHash.value)))
  }

  function FileOf(s: Store): File {
    if s.log.Some? then s.log.value else File([], true)
  }

  /** Append one signed line, sync it, then move the head. */
  function WriteChained(s: Store, e: Event, crash: Crash): Store
    requires e.unsigned.chainId.Has? && e.unsigned.sequence.Has? && e.thisHash.Has?
  {
    var f := FileOf(s);
    match crash
    case BeforeWrite => s
    case TornLine(text) => s.(log := Some(File(WriteLine(f, Garbled(text)), false)))
    case TornCharacter => s.(log := Some(File(WriteLine(f, NotUtf8), false)))
    case NoNewline => s.(log := Some(File(WriteLine(f, Object(e)), false)))
    case BeforeHead => s.(log := Some(File(WriteLine(f, Object(e)), true)))
    case Completed => s.(log := Some(File(WriteLine(f, Object(e)), true)), head := HeadFor(e))
  }

  /** Archive the current file, then replace it by a one-event chain linking to the archive. */
  function Rotate(hs: Hashes, s: Store, payload: string, chainId: string, name: Name, kind: Kind, crash: Crash): Store
    requires s.log.Some?
  {
    var archived := s.(archives := s.archives[name := s.log.value]);
    var link := LinkTo(name, hs.file(s.log.value), kind);
    var e := Signed(hs, Entry(payload, link), chainId, 1, GENESIS);
    match crash
    case BeforeWrite => s
    case TornLine(_) => archived
    case TornCharacter => archived
    case NoNewline => archived
    case BeforeHead => archived.(log := Some(File([Object(e)], true)))
    case Completed => archived.(log := Some(File([Object(e)], true)), head := HeadFor(e))
  }

  function RecoveryKind(hs: Hashes, s: Store, allowTorn: bool): Kind
    requires s.log.Some?
  {
    if allowTorn && HasValidPrefixAndHead(hs, s.log.value.lines, s.head) then TornKind else InvalidKind
  }

  /** One append; `chainId` and `name` are the fresh identifiers it may use. A last line that is not UTF-8
      is an error, and nothing is written. */
  function Append(hs: Hashes, s: Store, entry: Entry, chainId: string, name: Name, crash: Crash): Store {
    match TailLine(FileOf(s).lines)
    case None => WriteChained(s, Signed(hs, entry, chainId, 1, GENESIS), crash)
    case Some(Object(e)) =>
      if !HasChainField(e) then Rotate(hs, s, entry.payload, chainId, name, LegacyKind, crash)
      else (
        match ParseTip(hs, e)
        case None => Rotate(hs, s, entry.payload, chainId, name, RecoveryKind(hs, s, false), crash)
        case Some(tip) =>
          if tip.sequence == MAX_U64 then s
          else WriteChained(s, Signed(hs, entry, tip.chainId, tip.sequence + 1, tip.thisHash), crash))
    case Some(NotUtf8) => s
    case Some(NotObject(_)) => Rotate(hs, s, entry.payload, chainId, name, LegacyKind, crash)
    case Some(_) => Rotate(hs, s, entry.payload, chainId, name, RecoveryKind(hs, s, true), crash)
  }

  /** Operator rotation; quarantine is the variant that acknowledges an invalid log. */
  function Archive(hs: Hashes, s: Store, chainId: string, name: Name, acknowledge: bool): Store {
    if s.log.None? then s
    else if s.log.value.lines == [] then Store(None, None, s.archives)
    else if acknowledge && (Verifies(hs, s) || LegacyReport(s)) then s
    else
      var lines := s.log.value.lines;
      var kind := if ReportOf(hs, lines).valid then ChainKind
                  else if WhollyLegacy(lines) then LegacyKind
                  else if acknowledge then QuarantinedKind
                  else InvalidKind;
      Rotate(hs, s, "audit_archive", chainId, name, kind, Completed)
  }

  predicate LegacyReport(s: Store) {
    s.log.Some? && WhollyLegacy(s.log.value.lines) && s.head == None
  }
}
