/**
 Runs of the audit log: the store as the code mutates it, how far a crash lets the head
 fall behind, which interrupted appends heal, and why corruption, once recorded, stays.
 */
module AuditRuns {
  import opened Wrappers
  import opened AuditLog

  const EMPTY_STORE := Store(None, None, map[])

  // ---- the store, mutated step by step -----------------------------------------------------

  class AuditStore {
    const hs: Hashes
    var log: Option<File>
    var head: Option<HeadFile>
    var archives: map<Name, File>

    constructor (hs: Hashes)
      ensures this.hs == hs && Contents() == EMPTY_STORE
    {
      this.hs := hs;
      log, head, archives := None, None, map[];
    }

    function Contents(): Store
      reads this
    {
      Store(log, head, archives)
    }

    /** One append, stopping where the process dies. */
    method AppendChainedEvent(entry: Entry, chainId: string, name: Name, crash: Crash)
      modifies this
      ensures Contents() == Append(hs, old(Contents()), entry, chainId, name, crash)
    {
      var sequence, previousHash, id := 1, GENESIS, chainId;
      var tail := TailLine(FileOf(Contents()).lines);
      if tail.Some? {
        var last := tail.value;
        if last.NotUtf8? {
          return;
        }
        if !last.NotObject? && !last.Object? {
          RecoverInvalidTail(entry.payload, chainId, name, true, crash);
          return;
        }
        if last.NotObject? || !HasChainField(last.event) {
          CopyAndRestart(entry.payload, chainId, name, LegacyKind, crash);
          return;
        }
        var tip := ParseTip(hs, last.event);
        if tip.None? {
          RecoverInvalidTail(entry.payload, chainId, name, false, crash);
          return;
        }
        if tip.value.sequence == MAX_U64 {
          return;
        }
        id, sequence, previousHash := tip.value.chainId, tip.value.sequence + 1, tip.value.thisHash;
      }
      WriteChainedLine(Signed(hs, entry, id, sequence, previousHash), crash);
    }

    method RecoverInvalidTail(payload: string, chainId: string, name: Name, allowTornTail: bool, crash: Crash)
      requires log.Some?
      modifies this
      ensures Contents() == Rotate(hs, old(Contents()), payload, chainId, name,
                                   RecoveryKind(hs, old(Contents()), allowTornTail), crash)
    {
      var tornTail := allowTornTail && HasValidPrefixAndHead(hs, log.value.lines, head);
      CopyAndRestart(payload, chainId, name, if tornTail then TornKind else InvalidKind, crash);
    }

    /** Archive copy, then the one-event chain renamed into place, then the head. */
    method CopyAndRestart(payload: string, chainId: string, name: Name, kind: Kind, crash: Crash)
      requires log.Some?
      modifies this
      ensures Contents() == Rotate(hs, old(Contents()), payload, chainId, name, kind, crash)
    {
      if crash.BeforeWrite? {
        return;
      }
      var sha := hs.file(log.value);
      archives := archives[name := log.value];
      if crash.TornLine? || crash.TornCharacter? || crash.NoNewline? {
        return;
      }
      var e := Signed(hs, Entry(payload, LinkTo(name, sha, kind)), chainId, 1, GENESIS);
      log := Some(File([Object(e)], true));
      if crash.BeforeHead? {
        return;
      }
      head := HeadFor(e);
    }

    method WriteChainedLine(e: Event, crash: Crash)
      requires e.unsigned.chainId.Has? && e.unsigned.sequence.Has? && e.thisHash.Has?
      modifies this
      ensures Contents() == WriteChained(old(Contents()), e, crash)
    {
      var f := FileOf(Contents());
      if crash.BeforeWrite? {
        return;
      }
      if crash.TornLine? {
        log := Some(File(WriteLine(f, Garbled(crash.text)), false));
        return;
      }
      if crash.TornCharacter? {
        log := Some(File(WriteLine(f, NotUtf8), false));
        return;
      }
      log := Some(File(WriteLine(f, Object(e)), false));
      if crash.NoNewline? {
        return;
      }
      log := Some(log.value.(terminated := true));
      if crash.BeforeHead? {
        return;
      }
      head := HeadFor(e);
    }
  }

  // ---- longer logs -------------------------------------------------------------------------

  /** Validity is never regained by later lines. */
  lemma {:induction false} InvalidStays(hs: Hashes, lines: seq<Line>, more: seq<Line>)
    requires !ReportOf(hs, lines).valid
    ensures !ReportOf(hs, lines + more).valid
    decreases |more|
  {
    if more == [] {
      assert lines + more == lines;
    } else {
      var n := |more| - 1;
      InvalidStays(hs, lines, more[..n]);
      assert (lines + more)[..|lines| + n] == lines + more[..n];
    }
  }

  /** A valid report is the chain's own summary. */
  lemma ValidReport(hs: Hashes, lines: seq<Line>)
    requires ReportOf(hs, lines).valid
    ensures IsChain(hs, Events(lines)) && ReportOf(hs, lines).events == |Events(lines)|
    ensures var es := Events(lines);
            |es| > 0 ==> && ReportOf(hs, lines)
                            == ChainReport(|es|, LineTip(hs, es[0]).value, LineTip(hs, es[|es| - 1]).value)
                         && !WhollyLegacy(lines)
  {
    ReportMeaning(hs, lines);
    var es := Events(lines);
    if |es| > 0 {
      FirstEventIsALine(lines);
    }
  }

  lemma {:induction false} FirstEventIsALine(lines: seq<Line>)
    requires |Events(lines)| > 0
    ensures exists i :: 0 <= i < |lines| && !Skipped(lines[i]) && lines[i] == Events(lines)[0]
  {
    var n := |lines| - 1;
    if |Events(lines[..n])| > 0 {
      FirstEventIsALine(lines[..n]);
      var i :| 0 <= i < n && !Skipped(lines[..n][i]) && lines[..n][i] == Events(lines[..n])[0];
      assert lines[i] == Events(lines)[0];
    } else {
      assert lines[n] == Events(lines)[0];
    }
  }

  /** The event an append signs after the given last tip. */
  function NextEvent(hs: Hashes, last: Option<Tip>, entry: Entry, chainId: string): Event {
    match last
    case None => Signed(hs, entry, chainId, 1, GENESIS)
    case Some(tip) => Signed(hs, entry, tip.chainId, tip.sequence + 1, tip.thisHash)
  }

  function LastTip(hs: Hashes, es: seq<Line>): Option<Tip> {
    if |es| == 0 then None else LineTip(hs, es[|es| - 1])
  }

  /** Extending a chain by the next signed event keeps it a chain. */
  lemma NextEventChains(hs: Hashes, es: seq<Line>, entry: Entry, chainId: string)
    requires IsChain(hs, es) && |es| < MAX_U64
    ensures IsChain(hs, es + [Object(NextEvent(hs, LastTip(hs, es), entry, chainId))])
  {
    if |es| > 0 {
      assert LinkedAt(hs, es, |es| - 1);
    }
    ChainExtend(hs, es, Object(NextEvent(hs, LastTip(hs, es), entry, chainId)));
  }

  // ---- how far the head lags -------------------------------------------------------------------

  datatype Attempt = Attempt(entry: Entry, chainId: string, name: Name, crash: Crash)

  function RunAppends(hs: Hashes, attempts: seq<Attempt>): Store {
    if |attempts| == 0 then EMPTY_STORE
    else
      var a := attempts[|attempts| - 1];
      Append(hs, RunAppends(hs, attempts[..|attempts| - 1]), a.entry, a.chainId, a.name, a.crash)
  }

  /** Appends that either complete or die between the synced line and the head. */
  predicate LineSynced(attempts: seq<Attempt>) {
    forall i :: 0 <= i < |attempts| ==>
      && (attempts[i].crash.Completed? || attempts[i].crash.BeforeHead?)
      && attempts[i].entry.link == NoLink
  }

  /** Consecutive crashed appends since the last completed one. */
  function Lag(attempts: seq<Attempt>): (n: nat)
    ensures n <= |attempts|
  {
    if |attempts| == 0 || attempts[|attempts| - 1].crash.Completed? then 0
    else 1 + Lag(attempts[..|attempts| - 1])
  }

  /** Nothing but chained events, the first of which links nowhere. */
  ghost predicate PlainChain(hs: Hashes, lines: seq<Line>) {
    Events(lines) == lines && IsChain(hs, lines) && FirstLink(lines) == NoLink
  }

  /** n chained events on file; the head names the one `lag` before the last, if there is one. */
  ghost predicate Tracks(hs: Hashes, s: Store, n: nat, lag: nat)
    requires lag <= n
  {
    if n == 0 then s == EMPTY_STORE
    else
      && s.log.Some? && s.log.value.terminated
      && |s.log.value.lines| == n && PlainChain(hs, s.log.value.lines)
      && s.head == if lag == n then None else HeadOfLine(hs, s.log.value.lines[n - lag - 1])
  }

  function HeadOfLine(hs: Hashes, l: Line): Option<HeadFile> {
    match LineTip(hs, l)
    case None => None
    case Some(tip) => Some(HeadIs(Head(CHAIN_VERSION, tip.chainId, tip.sequence, tip.thisHash)))
  }

  lemma EmptyTracks(hs: Hashes)
    ensures Tracks(hs, EMPTY_STORE, 0, 0)
  {
  }

  lemma {:induction false} RunTracks(hs: Hashes, attempts: seq<Attempt>)
    requires LineSynced(attempts) && |attempts| < MAX_U64
    ensures Tracks(hs, RunAppends(hs, attempts), |attempts|, Lag(attempts))
  {
    hide Tracks, Append;
    if |attempts| == 0 {
      EmptyTracks(hs);
    } else {
      var n := |attempts| - 1;
      RunTracks(hs, attempts[..n]);
      StepTracks(hs, RunAppends(hs, attempts[..n]), n, Lag(attempts[..n]), attempts[n]);
    }
  }

  lemma GrowPlainChain(hs: Hashes, lines: seq<Line>, entry: Entry, chainId: string)
    requires PlainChain(hs, lines) && |lines| < MAX_U64 && entry.link == NoLink
    ensures PlainChain(hs, lines + [Object(NextEvent(hs, LastTip(hs, lines), entry, chainId))])
  {
    NextEventChains(hs, lines, entry, chainId);
  }

  lemma StepTracks(hs: Hashes, s: Store, n: nat, lag: nat, a: Attempt)
    requires lag <= n < MAX_U64 && Tracks(hs, s, n, lag)
    requires (a.crash.Completed? || a.crash.BeforeHead?) && a.entry.link == NoLink
    ensures Tracks(hs, Append(hs, s, a.entry, a.chainId, a.name, a.crash), n + 1,
                   if a.crash.Completed? then 0 else lag + 1)
  {
    var lines := FileOf(s).lines;
    AppendToTracked(hs, s, n, lag, a);
    assert PlainChain(hs, lines);
    GrowPlainChain(hs, lines, a.entry, a.chainId);
    SignedTip(hs, lines, a.entry, a.chainId);
    hide PlainChain, NextEvent, LineTip, Append;
  }

  lemma SignedTip(hs: Hashes, es: seq<Line>, entry: Entry, chainId: string)
    requires IsChain(hs, es) && |es| < MAX_U64
    ensures var e := NextEvent(hs, LastTip(hs, es), entry, chainId);
            LineTip(hs, Object(e)).Some? && HeadOfLine(hs, Object(e)) == HeadFor(e)
  {
    if |es| > 0 {
      assert LinkedAt(hs, es, |es| - 1);
    }
  }

  lemma AppendToTracked(hs: Hashes, s: Store, n: nat, lag: nat, a: Attempt)
    requires lag <= n < MAX_U64 && Tracks(hs, s, n, lag)
    ensures Append(hs, s, a.entry, a.chainId, a.name, a.crash)
            == WriteChained(s, NextEvent(hs, LastTip(hs, FileOf(s).lines), a.entry, a.chainId), a.crash)
  {
    if n > 0 {
      var lines := s.log.value.lines;
      assert LinkedAt(hs, lines, n - 1);
    }
  }

  lemma PlainReport(hs: Hashes, lines: seq<Line>)
    requires PlainChain(hs, lines) && 0 < |lines| < MAX_U64
    ensures var n := |lines|;
            var last := LineTip(hs, lines[n - 1]).value;
            && ReportOf(hs, lines) == ChainReport(n, LineTip(hs, lines[0]).value, last)
            && !WhollyLegacy(lines) && FirstLink(lines) == NoLink
            && last.sequence == n
            && (n >= 2 ==> last.prev == LineTip(hs, lines[n - 2]).value.thisHash)
  {
    ReportMeaning(hs, lines);
    ValidReport(hs, lines);
    assert LinkedAt(hs, lines, |lines| - 1);
  }

  lemma HeadOfChainLine(hs: Hashes, lines: seq<Line>, i: nat)
    requires PlainChain(hs, lines) && i < |lines| < MAX_U64
    ensures LineTip(hs, lines[i]).Some? && LineTip(hs, lines[i]).value.sequence == i + 1
    ensures LineTip(hs, lines[i]).value.chainId == LineTip(hs, lines[0]).value.chainId
  {
    assert LinkedAt(hs, lines, i);
  }

  lemma LagDecides(hs: Hashes, s: Store, n: nat, lag: nat)
    requires lag <= n < MAX_U64 && Tracks(hs, s, n, lag)
    ensures Verifies(hs, s) <==> n == 0 || lag == 0 || (lag == 1 && n >= 2)
  {
    hide LineTip, PlainChain, ScanLines, WhollyLegacy, FirstLink;
    if n > 0 {
      var lines := s.log.value.lines;
      PlainReport(hs, lines);
      if lag < n {
        HeadOfChainLine(hs, lines, n - lag - 1);
      }
    }
  }

  /** The head is behind by exactly the crashes since the last completed append, and that
      decides verification: nothing written, no lag, or one event of lag behind a real head. */
  lemma CrashLag(hs: Hashes, attempts: seq<Attempt>)
    requires LineSynced(attempts) && |attempts| < MAX_U64
    ensures Tracks(hs, RunAppends(hs, attempts), |attempts|, Lag(attempts))
    ensures Verifies(hs, RunAppends(hs, attempts)) <==>
            |attempts| == 0 || Lag(attempts) == 0 || (Lag(attempts) == 1 && |attempts| >= 2)
  {
    RunTracks(hs, attempts);
    LagDecides(hs, RunAppends(hs, attempts), |attempts|, Lag(attempts));
  }

  // ---- which interrupted appends heal --------------------------------------------------------------

  /** A terminated log ending in a chained event, with sequence numbers left for `room` more. */
  ghost predicate EndsInEvent(hs: Hashes, s: Store, room: nat) {
    && s.log.Some? && s.log.value.terminated
    && TailLine(s.log.value.lines).Some?
    && LineTip(hs, TailLine(s.log.value.lines).value).Some?
    && LineTip(hs, TailLine(s.log.value.lines).value).value.sequence + room <= MAX_U64
  }

  function Retry(hs: Hashes, s: Store, first: Attempt, second: Attempt): Store {
    var interrupted := Append(hs, s, first.entry, first.chainId, first.name, first.crash);
    Append(hs, interrupted, second.entry, second.chainId, second.name, Completed)
  }

  lemma {:induction false} TailIsLastEvent(lines: seq<Line>)
    requires TailLine(lines).Some? && TailLine(lines).value.Object?
    ensures |Events(lines)| > 0 && Events(lines)[|Events(lines)| - 1] == TailLine(lines).value
  {
    if lines[|lines| - 1].Blank? {
      TailIsLastEvent(lines[..|lines| - 1]);
    }
  }

  /** What a completed append to a log ending in an event leaves behind. */
  lemma CompletedAppend(hs: Hashes, s: Store, a: Attempt)
    requires EndsInEvent(hs, s, 1) && a.crash.Completed?
    ensures var lines := s.log.value.lines;
            var t := Append(hs, s, a.entry, a.chainId, a.name, a.crash);
            var e := NextEvent(hs, LastTip(hs, Events(lines)), a.entry, a.chainId);
            && t == Store(Some(File(lines + [Object(e)], true)), HeadFor(e), s.archives)
            && ReportOf(hs, t.log.value.lines).valid == ReportOf(hs, lines).valid
            && FirstLink(t.log.value.lines) == FirstLink(lines)
            && (ReportOf(hs, lines).valid && LinkValid(hs, s.archives, FirstLink(lines), 0, {}) <==> Verifies(hs, t))
  {
    var lines := s.log.value.lines;
    TailIsLastEvent(lines);
    var e := NextEvent(hs, LastTip(hs, Events(lines)), a.entry, a.chainId);
    SignedParses(hs, a.entry, e.unsigned.chainId.value, e.unsigned.sequence.value, e.unsigned.prev.value);
    if ReportOf(hs, lines).valid {
      ValidReport(hs, lines);
      assert LinkedAt(hs, Events(lines), |Events(lines)| - 1);
      NextEventReport(hs, lines, a.entry, a.chainId);
    }
  }

  lemma NextEventReport(hs: Hashes, lines: seq<Line>, entry: Entry, chainId: string)
    requires ReportOf(hs, lines).valid && |Events(lines)| < MAX_U64
    ensures var e := NextEvent(hs, LastTip(hs, Events(lines)), entry, chainId);
            var r := ReportOf(hs, lines + [Object(e)]);
            && r.valid && HeadMatches(r, HeadFor(e)) && !WhollyLegacy(lines + [Object(e)])
  {
    var es := Events(lines);
    var e := NextEvent(hs, LastTip(hs, es), entry, chainId);
    ReportMeaning(hs, lines);
    NextEventChains(hs, es, entry, chainId);
    SignedTip(hs, es, entry, chainId);
    ReportMeaning(hs, lines + [Object(e)]);
    ValidReport(hs, lines + [Object(e)]);
  }

  /** From a store that verifies, an interrupted append followed by a completed one verifies again
      unless the first left its whole line without the newline, or tore it inside a character. */
  lemma RetryHealsIff(hs: Hashes, s: Store, first: Attempt, second: Attempt)
    requires Verifies(hs, s) && EndsInEvent(hs, s, 2) && second.crash.Completed?
    ensures Verifies(hs, Retry(hs, s, first, second)) <==> !first.crash.NoNewline? && !first.crash.TornCharacter?
  {
    hide LineTip, ScanLines, LinkValid;
    match first.crash
    case BeforeWrite =>
      UntouchedRetry(hs, s, first, second);
    case TornLine(_) =>
      TornRetry(hs, s, first, second);
    case TornCharacter =>
      TornRetry(hs, s, first, second);
    case NoNewline =>
      GluedRetry(hs, s, first, second);
    case Completed =>
      CompletedRetry(hs, s, first, second);
    case BeforeHead =>
      LaggingRetry(hs, s, first, second);
  }

  lemma UntouchedRetry(hs: Hashes, s: Store, first: Attempt, second: Attempt)
    requires Verifies(hs, s) && EndsInEvent(hs, s, 2) && first.crash.BeforeWrite? && second.crash.Completed?
    ensures Verifies(hs, Retry(hs, s, first, second))
  {
    CompletedAppend(hs, s, second);
  }

  lemma CompletedRetry(hs: Hashes, s: Store, first: Attempt, second: Attempt)
    requires Verifies(hs, s) && EndsInEvent(hs, s, 2) && first.crash.Completed? && second.crash.Completed?
    ensures Verifies(hs, Retry(hs, s, first, second))
  {
    CompletedAppend(hs, s, first);
    CompletedAppend(hs, Append(hs, s, first.entry, first.chainId, first.name, Completed), second);
  }

  lemma LaggingRetry(hs: Hashes, s: Store, first: Attempt, second: Attempt)
    requires Verifies(hs, s) && EndsInEvent(hs, s, 2) && first.crash.BeforeHead? && second.crash.Completed?
    ensures Verifies(hs, Retry(hs, s, first, second))
  {
    hide ScanLines, WhollyLegacy, LinkValid, HeadMatches, Events;
    var full := first.(crash := Completed);
    var waiting := Append(hs, s, first.entry, first.chainId, first.name, BeforeHead);
    CompletedAppend(hs, s, full);
    assert waiting == Append(hs, s, full.entry, full.chainId, full.name, Completed).(head := s.head);
    CompletedAppend(hs, waiting, second);
  }

  /** After an append torn between characters the next one archives the log and starts a chain that
      verifies exactly when the lines before the tear formed a valid chain whose head matched. Links of
      that chain to older archives are not consulted. After a tear inside a character it is refused. */
  lemma TornRetry(hs: Hashes, s: Store, first: Attempt, second: Attempt)
    requires EndsInEvent(hs, s, 1) && second.crash.Completed?
    requires first.crash.TornLine? || first.crash.TornCharacter?
    ensures var r := ReportOf(hs, s.log.value.lines);
            Verifies(hs, Retry(hs, s, first, second)) <==> first.crash.TornLine? && r.valid && HeadMatches(r, s.head)
  {
    hide ScanLines, Verifies, Append;
    var torn := Append(hs, s, first.entry, first.chainId, first.name, first.crash);
    if first.crash.TornLine? {
      TornStore(hs, s, first, second);
      RotatedVerifies(hs, torn, second.entry.payload, second.chainId, second.name, RecoveryKind(hs, torn, true));
    } else {
      TornCharacterTail(hs, s, first);
      NotUtf8Refuses(hs, torn, [second]);
      assert [second][..0] == [];
    }
  }

  lemma TornCharacterTail(hs: Hashes, s: Store, first: Attempt)
    requires EndsInEvent(hs, s, 1) && first.crash.TornCharacter?
    ensures var torn := Append(hs, s, first.entry, first.chainId, first.name, first.crash);
            torn.log.Some? && TailLine(torn.log.value.lines) == Some(NotUtf8)
  {
  }

  /** Appends from a given store, each stopping where it does. */
  function RunAttempts(hs: Hashes, s: Store, attempts: seq<Attempt>): Store {
    if |attempts| == 0 then s
    else
      var a := attempts[|attempts| - 1];
      Append(hs, RunAttempts(hs, s, attempts[..|attempts| - 1]), a.entry, a.chainId, a.name, a.crash)
  }

  /** Over a last line that is not UTF-8 no append does anything, however many are made. */
  lemma {:induction false} NotUtf8Refuses(hs: Hashes, s: Store, attempts: seq<Attempt>)
    requires s.log.Some? && TailLine(s.log.value.lines) == Some(NotUtf8)
    ensures RunAttempts(hs, s, attempts) == s && !Verifies(hs, s)
  {
    if |attempts| > 0 {
      NotUtf8Refuses(hs, s, attempts[..|attempts| - 1]);
    }
    TailIsALine(s.log.value.lines);
  }

  lemma TornStore(hs: Hashes, s: Store, first: Attempt, second: Attempt)
    requires EndsInEvent(hs, s, 1) && first.crash.TornLine? && second.crash.Completed?
    ensures var torn := Append(hs, s, first.entry, first.chainId, first.name, first.crash);
            var r := ReportOf(hs, s.log.value.lines);
            && torn.log.Some?
            && (RecoveryKind(hs, torn, true) == if r.valid && HeadMatches(r, s.head) then TornKind else InvalidKind)
            && Retry(hs, s, first, second)
               == Rotate(hs, torn, second.entry.payload, second.chainId, second.name,
                         RecoveryKind(hs, torn, true), Completed)
  {
    var lines := s.log.value.lines;
    TailIsLastEvent(lines);
    ReportMeaning(hs, lines);
  }

  /** A freshly rotated log verifies exactly when its link does. */
  lemma RotatedVerifies(hs: Hashes, s: Store, payload: string, chainId: string, name: Name, kind: Kind)
    requires s.log.Some?
    ensures var t := Rotate(hs, s, payload, chainId, name, kind, Completed);
            && Verifies(hs, t) == LinkValid(hs, t.archives, LinkTo(name, hs.file(s.log.value), kind), 0, {})
            && ReportOf(hs, t.log.value.lines).valid
            && FirstLink(t.log.value.lines) == LinkTo(name, hs.file(s.log.value), kind)
  {
    hide ScanLines, WhollyLegacy, HeadMatches, LinkValid, FirstLink;
    var entry := Entry(payload, LinkTo(name, hs.file(s.log.value), kind));
    var e := Signed(hs, entry, chainId, 1, GENESIS);
    assert [] + [Object(e)] == [Object(e)];
    NothingReported(hs);
    NextEventReport(hs, [], entry, chainId);
    OneEventLink(e);
  }

  lemma NothingReported(hs: Hashes)
    ensures ReportOf(hs, []).valid && Events([]) == []
  {
  }

  lemma OneEventLink(e: Event)
    ensures FirstLink([Object(e)]) == e.unsigned.entry.link
  {
    assert [Object(e)][..0] == [];
    assert Events([Object(e)]) == [Object(e)];
  }

  lemma GluedRetry(hs: Hashes, s: Store, first: Attempt, second: Attempt)
    requires EndsInEvent(hs, s, 2) && first.crash.NoNewline? && second.crash.Completed?
    ensures !Verifies(hs, Retry(hs, s, first, second))
  {
    var lines := s.log.value.lines;
    var tip := LineTip(hs, TailLine(lines).value).value;
    var e := Signed(hs, first.entry, tip.chainId, tip.sequence + 1, tip.thisHash);
    SignedParses(hs, first.entry, tip.chainId, tip.sequence + 1, tip.thisHash);
    var glued := lines + [Garbled("glued")];
    assert (lines + [Object(e)])[..|lines|] + [Garbled("glued")] == glued;
    assert Retry(hs, s, first, second).log.value.lines == glued;
  }

  /** The very first append heals only if it wrote nothing or its whole terminated line. */
  lemma FirstAppendHealsIff(hs: Hashes, first: Attempt, second: Attempt)
    requires second.crash.Completed? && first.entry.link == NoLink && second.entry.link == NoLink
    ensures Verifies(hs, Retry(hs, EMPTY_STORE, first, second)) <==>
            first.crash.BeforeWrite? || first.crash.BeforeHead? || first.crash.Completed?
  {
    if first.crash.BeforeWrite? {
      OnlyAppend(hs, second);
    } else if first.crash.TornLine? || first.crash.TornCharacter? || first.crash.NoNewline? {
      UnfinishedFirst(hs, first, second);
    } else {
      TwoAppends(hs, first, second);
    }
  }

  /** With no sound line before it a torn first line is recorded as invalid; a whole one is glued to. */
  lemma UnfinishedFirst(hs: Hashes, first: Attempt, second: Attempt)
    requires first.crash.TornLine? || first.crash.TornCharacter? || first.crash.NoNewline?
    requires second.crash.Completed?
    ensures !Verifies(hs, Retry(hs, EMPTY_STORE, first, second))
  {
    hide ScanLines, HeadMatches, WhollyLegacy;
    var torn := Append(hs, EMPTY_STORE, first.entry, first.chainId, first.name, first.crash);
    if first.crash.TornLine? {
      assert torn.log.value.lines == [Garbled(first.crash.text)];
      RotatedVerifies(hs, torn, second.entry.payload, second.chainId, second.name, InvalidKind);
    } else if first.crash.TornCharacter? {
      assert torn.log.value.lines == [NotUtf8] && [second][..0] == [];
      NotUtf8Refuses(hs, torn, [second]);
    } else {
      var e := Signed(hs, first.entry, first.chainId, 1, GENESIS);
      assert torn.log.value.lines == [Object(e)];
      assert Retry(hs, EMPTY_STORE, first, second).log.value.lines == [] + [Garbled("glued")];
      MalformedTail(hs, [], "glued", None);
    }
  }

  lemma OnlyAppend(hs: Hashes, a: Attempt)
    requires a.crash.Completed? && a.entry.link == NoLink
    ensures Verifies(hs, Append(hs, EMPTY_STORE, a.entry, a.chainId, a.name, Completed))
  {
    CrashLag(hs, [a]);
    assert [a][..0] == [];
  }

  lemma TwoAppends(hs: Hashes, first: Attempt, second: Attempt)
    requires LineSynced([first, second]) && second.crash.Completed?
    ensures Verifies(hs, Retry(hs, EMPTY_STORE, first, second))
  {
    CrashLag(hs, [first, second]);
    assert [first, second][..1] == [first];
    assert [first][..0] == [];
    assert RunAppends(hs, [first]) == Append(hs, EMPTY_STORE, first.entry, first.chainId, first.name, first.crash);
  }

  // ---- corruption stays ------------------------------------------------------------------------------

  /** A link that can never verify: marked invalid, or through chain archives to one that is. */
  predicate TaintedLink(archives: map<Name, File>, link: Link, steps: nat)
    decreases steps
  {
    && link.LinkTo? && link.name in archives && !AcceptedKind(link.kind)
    && (link.kind == ChainKind ==>
          steps > 0 && TaintedLink(archives, FirstLink(archives[link.name].lines), steps - 1))
  }

  lemma {:induction false} TaintedLinkInvalid(
    hs: Hashes, archives: map<Name, File>, link: Link, steps: nat, depth: nat, visited: set<Name>)
    requires TaintedLink(archives, link, steps)
    ensures !LinkValid(hs, archives, link, depth, visited)
    decreases steps
  {
    if link.kind == ChainKind && depth < MAX_ARCHIVE_DEPTH {
      var next := FirstLink(archives[link.name].lines);
      TaintedLinkInvalid(hs, archives, next, steps - 1, depth + 1, visited + {link.name});
    }
  }

  lemma {:induction false} TaintedLinkGrows(archives: map<Name, File>, link: Link, steps: nat, name: Name, f: File)
    requires TaintedLink(archives, link, steps) && name !in archives
    ensures TaintedLink(archives[name := f], link, steps)
    decreases steps
  {
    if link.kind == ChainKind {
      TaintedLinkGrows(archives, FirstLink(archives[link.name].lines), steps - 1, name, f);
    }
  }

  /** Lines that verify, linked to something that never will. */
  ghost predicate TaintedLog(hs: Hashes, s: Store) {
    && s.log.Some?
    && ReportOf(hs, s.log.value.lines).valid
    && TailLine(s.log.value.lines).Some? && LineTip(hs, TailLine(s.log.value.lines).value).Some?
    && exists steps: nat :: TaintedLink(s.archives, FirstLink(s.log.value.lines), steps)
  }

  /** Without its newline the last event will be glued to; sound lines before it then count as torn
      if the event signed after it is one of the last two they already hold. */
  ghost predicate Replays(hs: Hashes, f: File) {
    && !f.terminated && |f.lines| > 1
    && LineTip(hs, f.lines[|f.lines| - 1]).Some?
    && LineTip(hs, f.lines[|f.lines| - 1]).value.sequence < MAX_U64
    && exists entry :: ReplayedBy(hs, f.lines, entry)
  }

  predicate ReplayedBy(hs: Hashes, lines: seq<Line>, entry: Entry)
    requires |lines| > 0 && LineTip(hs, lines[|lines| - 1]).Some?
  {
    var pre := ReportOf(hs, lines[..|lines| - 1]);
    pre.valid && pre.events > 0 && HeadMatches(pre, HeadFor(NextEvent(hs, LastTip(hs, lines), entry, "")))
  }

  /** Lines that do not verify, over a tail the append path takes neither for a legacy record, nor
      for a torn line after sound ones, nor for a line to glue a replay to. */
  ghost predicate CorruptLog(hs: Hashes, s: Store) {
    && s.log.Some?
    && !ReportOf(hs, s.log.value.lines).valid
    && !WhollyLegacy(s.log.value.lines)
    && !Replays(hs, s.log.value)
    && var tail := TailLine(s.log.value.lines);
       && tail.Some?
       && !tail.value.NotObject?
       && (tail.value.Object? ==> HasChainField(tail.value.event))
       && (!tail.value.Object? && !tail.value.NotUtf8? ==> !HasValidPrefixAndHead(hs, s.log.value.lines, s.head))
  }

  /** A bad line before the last, and a last line that is malformed or carries chain fields, however
      the file ends. */
  lemma BadEarlierLineIsCorrupt(hs: Hashes, s: Store, prefix: seq<Line>)
    requires s.log.Some? && !WhollyLegacy(s.log.value.lines)
    requires PrefixBeforeTail(s.log.value.lines) == Some(prefix) && !ReportOf(hs, prefix).valid
    requires var tail := TailLine(s.log.value.lines);
             tail.Some? && !tail.value.NotObject? && (tail.value.Object? ==> HasChainField(tail.value.event))
    ensures CorruptLog(hs, s)
  {
    var lines := s.log.value.lines;
    PrefixIsPrefix(lines, prefix);
    InvalidStays(hs, prefix, lines[|prefix|..]);
    assert prefix + lines[|prefix|..] == lines;
  }

  lemma {:induction false} PrefixIsPrefix(lines: seq<Line>, prefix: seq<Line>)
    requires PrefixBeforeTail(lines) == Some(prefix)
    ensures |prefix| <= |lines| && lines[..|prefix|] == prefix
  {
    if lines[|lines| - 1].Blank? {
      PrefixIsPrefix(lines[..|lines| - 1], prefix);
    }
  }

  ghost predicate Unrecoverable(hs: Hashes, s: Store) {
    CorruptLog(hs, s) || TaintedLog(hs, s)
  }

  lemma UnrecoverableFailsVerify(hs: Hashes, s: Store)
    requires Unrecoverable(hs, s)
    ensures !Verifies(hs, s)
  {
    if TaintedLog(hs, s) {
      var steps: nat :| TaintedLink(s.archives, FirstLink(s.log.value.lines), steps);
      TaintedLinkInvalid(hs, s.archives, FirstLink(s.log.value.lines), steps, 0, {});
    }
  }

  datatype Operation = AppendEvent(entry: Entry, chainId: string, name: Name) | ArchiveLog(chainId: string, name: Name)

  function Apply(hs: Hashes, s: Store, op: Operation): Store {
    match op
    case AppendEvent(entry, chainId, name) => Append(hs, s, entry, chainId, name, Completed)
    case ArchiveLog(chainId, name) => Archive(hs, s, chainId, name, false)
  }

  lemma RotatedTaint(hs: Hashes, s: Store, payload: string, chainId: string, name: Name, kind: Kind, steps: nat)
    requires s.log.Some?
    requires kind == InvalidKind
             || (kind == ChainKind && steps > 0
                 && TaintedLink(s.archives[name := s.log.value], FirstLink(s.log.value.lines), steps - 1))
    ensures TaintedLog(hs, Rotate(hs, s, payload, chainId, name, kind, Completed))
  {
    hide ScanLines, WhollyLegacy, LinkValid, Verifies;
    var link := LinkTo(name, hs.file(s.log.value), kind);
    var t := Rotate(hs, s, payload, chainId, name, kind, Completed);
    RotatedVerifies(hs, s, payload, chainId, name, kind);
    SignedParses(hs, Entry(payload, link), chainId, 1, GENESIS);
    var e := Signed(hs, Entry(payload, link), chainId, 1, GENESIS);
    assert t.log.value.lines == [] + [Object(e)];
    assert TaintedLink(t.archives, link, steps);
  }

  lemma CorruptStep(hs: Hashes, s: Store, op: Operation)
    requires CorruptLog(hs, s)
    ensures Unrecoverable(hs, Apply(hs, s, op))
  {
    var tail := TailLine(s.log.value.lines).value;
    if op.ArchiveLog? {
      RotatedTaint(hs, s, "audit_archive", op.chainId, op.name, InvalidKind, 0);
    } else if tail.NotUtf8? {
      assert Apply(hs, s, op) == s;
    } else if LineTip(hs, tail).None? {
      RotatedTaint(hs, s, op.entry.payload, op.chainId, op.name, InvalidKind, 0);
    } else if LineTip(hs, tail).value.sequence < MAX_U64 {
      CorruptAppend(hs, s, op);
    }
  }

  /** What a completed append writes after a chained tail below the last number. */
  lemma ChainedAppend(hs: Hashes, s: Store, op: Operation)
    requires op.AppendEvent? && s.log.Some? && TailLine(s.log.value.lines).Some?
    requires var tip := LineTip(hs, TailLine(s.log.value.lines).value); tip.Some? && tip.value.sequence < MAX_U64
    ensures var e := NextEvent(hs, LineTip(hs, TailLine(s.log.value.lines).value), op.entry, op.chainId);
            && LineTip(hs, Object(e)).Some? && HasChainField(e)
            && Apply(hs, s, op) == Store(Some(File(WriteLine(s.log.value, Object(e)), true)), HeadFor(e), s.archives)
  {
    var tip := LineTip(hs, TailLine(s.log.value.lines).value).value;
    SignedParses(hs, op.entry, tip.chainId, tip.sequence + 1, tip.thisHash);
  }

  lemma CorruptAppend(hs: Hashes, s: Store, op: Operation)
    requires CorruptLog(hs, s) && op.AppendEvent?
    requires var tip := LineTip(hs, TailLine(s.log.value.lines).value); tip.Some? && tip.value.sequence < MAX_U64
    ensures CorruptLog(hs, Apply(hs, s, op))
  {
    var f := s.log.value;
    var n := |f.lines| - 1;
    ChainedAppend(hs, s, op);
    var e := NextEvent(hs, LineTip(hs, TailLine(f.lines).value), op.entry, op.chainId);
    if f.terminated {
      InvalidStays(hs, f.lines, [Object(e)]);
      assert (f.lines + [Object(e)])[n + 1] == Object(e);
    } else if f.lines[n].Blank? {
      InvalidStays(hs, f.lines[..n], [Object(e)]);
      assert (f.lines[..n] + [Object(e)])[n] == Object(e);
    } else {
      assert n == 0 || !ReplayedBy(hs, f.lines, op.entry);
      GluedIsCorrupt(hs, s, op);
    }
  }

  /** What a malformed last line means for each of the append path's questions. */
  lemma MalformedTail(hs: Hashes, pre: seq<Line>, text: string, head: Option<HeadFile>)
    ensures var lines := pre + [Garbled(text)];
            && TailLine(lines) == Some(Garbled(text)) && !ReportOf(hs, lines).valid && !WhollyLegacy(lines)
            && (HasValidPrefixAndHead(hs, lines, head) <==>
                pre != [] && ReportOf(hs, pre).valid && ReportOf(hs, pre).events > 0
                && HeadMatches(ReportOf(hs, pre), head))
  {
    var lines := pre + [Garbled(text)];
    assert lines[|pre|] == Garbled(text) && lines[..|pre|] == pre;
  }

  /** The glued line is malformed, and what stands before it is not a chain the new head names. */
  lemma GluedIsCorrupt(hs: Hashes, s: Store, op: Operation)
    requires op.AppendEvent? && s.log.Some? && TailLine(s.log.value.lines).Some?
    requires var tip := LineTip(hs, TailLine(s.log.value.lines).value); tip.Some? && tip.value.sequence < MAX_U64
    requires !s.log.value.terminated && !s.log.value.lines[|s.log.value.lines| - 1].Blank?
    requires |s.log.value.lines| == 1 || !ReplayedBy(hs, s.log.value.lines, op.entry)
    ensures CorruptLog(hs, Apply(hs, s, op))
  {
    hide ScanLines, WhollyLegacy, HeadMatches, ParseTip;
    var lines := s.log.value.lines;
    var pre := lines[..|lines| - 1];
    ChainedAppend(hs, s, op);
    var t := Apply(hs, s, op);
    assert t.log == Some(File(pre + [Garbled("glued")], true));
    hide Apply;
    MalformedTail(hs, pre, "glued", t.head);
    hide HasValidPrefixAndHead, TailLine;
  }

  lemma TaintedStep(hs: Hashes, s: Store, op: Operation)
    requires TaintedLog(hs, s) && op.name !in s.archives
    ensures Unrecoverable(hs, Apply(hs, s, op))
  {
    var steps: nat :| TaintedLink(s.archives, FirstLink(s.log.value.lines), steps);
    if op.ArchiveLog? {
      TaintedArchive(hs, s, op, steps);
    } else {
      TaintedAppend(hs, s, op, steps);
    }
  }

  lemma TaintedArchive(hs: Hashes, s: Store, op: Operation, steps: nat)
    requires TaintedLog(hs, s) && op.ArchiveLog? && op.name !in s.archives
    requires TaintedLink(s.archives, FirstLink(s.log.value.lines), steps)
    ensures TaintedLog(hs, Apply(hs, s, op))
  {
    TaintedLinkGrows(s.archives, FirstLink(s.log.value.lines), steps, op.name, s.log.value);
    RotatedTaint(hs, s, "audit_archive", op.chainId, op.name, ChainKind, steps + 1);
  }

  /** An append extends the tainted chain, or is glued to its unterminated last line. */
  lemma TaintedAppend(hs: Hashes, s: Store, op: Operation, steps: nat)
    requires TaintedLog(hs, s) && op.AppendEvent?
    requires TaintedLink(s.archives, FirstLink(s.log.value.lines), steps)
    ensures Unrecoverable(hs, Apply(hs, s, op))
  {
    hide ScanLines, WhollyLegacy, Events, HeadMatches, IsChain;
    var f := s.log.value;
    var n := |f.lines| - 1;
    if LineTip(hs, TailLine(f.lines).value).value.sequence < MAX_U64 {
      if f.terminated {
        ExtendTainted(hs, s, op, steps, f.lines);
      } else if f.lines[n].Blank? {
        ExtendTainted(hs, s, op, steps, f.lines[..n]);
      } else {
        GluedTaint(hs, s, op);
      }
    }
  }

  /** The last of valid lines carries the number of events, until the numbers run out. */
  lemma ValidTail(hs: Hashes, lines: seq<Line>)
    requires ReportOf(hs, lines).valid && TailLine(lines).Some?
    requires var tip := LineTip(hs, TailLine(lines).value); tip.Some? && tip.value.sequence < MAX_U64
    ensures LineTip(hs, TailLine(lines).value).value.sequence == |Events(lines)|
    ensures LastTip(hs, Events(lines)) == LineTip(hs, TailLine(lines).value)
  {
    TailIsLastEvent(lines);
    ValidReport(hs, lines);
    assert LinkedAt(hs, Events(lines), |Events(lines)| - 1);
  }

  lemma ExtendTainted(hs: Hashes, s: Store, op: Operation, steps: nat, kept: seq<Line>)
    requires TaintedLog(hs, s) && op.AppendEvent?
    requires TaintedLink(s.archives, FirstLink(s.log.value.lines), steps)
    requires LineTip(hs, TailLine(s.log.value.lines).value).value.sequence < MAX_U64
    requires kept == s.log.value.lines || s.log.value.lines == kept + [Blank]
    requires forall l :: WriteLine(s.log.value, l) == kept + [l]
    ensures TaintedLog(hs, Apply(hs, s, op))
  {
    hide ParseTip, IsChain;
    var lines := s.log.value.lines;
    TailIsLastEvent(lines);
    ValidTail(hs, lines);
    SameWithoutBlank(hs, lines, kept);
    ChainedAppend(hs, s, op);
    hide Apply, WriteLine;
    NextEventReport(hs, kept, op.entry, op.chainId);
    var e := NextEvent(hs, LastTip(hs, Events(kept)), op.entry, op.chainId);
    hide NextEvent, LineTip;
    assert FirstLink(kept + [Object(e)]) == FirstLink(lines);
    assert TaintedLink(s.archives, FirstLink(kept + [Object(e)]), steps);
  }

  lemma SameWithoutBlank(hs: Hashes, lines: seq<Line>, kept: seq<Line>)
    requires kept == lines || lines == kept + [Blank]
    ensures Events(kept) == Events(lines) && ReportOf(hs, kept) == ReportOf(hs, lines)
  {
  }

  lemma GluedTaint(hs: Hashes, s: Store, op: Operation)
    requires TaintedLog(hs, s) && op.AppendEvent?
    requires LineTip(hs, TailLine(s.log.value.lines).value).value.sequence < MAX_U64
    requires !s.log.value.terminated && !s.log.value.lines[|s.log.value.lines| - 1].Blank?
    ensures CorruptLog(hs, Apply(hs, s, op))
  {
    var lines := s.log.value.lines;
    ValidTail(hs, lines);
    SoundIsNoReplay(hs, lines, op.entry);
    GluedIsCorrupt(hs, s, op);
  }

  /** The number signed after a sound chain is past every number in it. */
  lemma SoundIsNoReplay(hs: Hashes, lines: seq<Line>, entry: Entry)
    requires |lines| > 0 && LineTip(hs, lines[|lines| - 1]).Some?
    requires LineTip(hs, lines[|lines| - 1]).value.sequence == |Events(lines)| < MAX_U64
    ensures !ReplayedBy(hs, lines, entry)
  {
    var pre := lines[..|lines| - 1];
    var r := ReportOf(hs, pre);
    ReportMeaning(hs, pre);
    if r.valid && r.events > 0 {
      assert LinkedAt(hs, Events(pre), |Events(pre)| - 1);
      assert r.lastSequence == Some(|Events(pre)|);
    }
  }

  lemma {:induction false} NotLegacyTail(hs: Hashes, lines: seq<Line>)
    requires TailLine(lines).Some? && LineTip(hs, TailLine(lines).value).Some?
    ensures !WhollyLegacy(lines)
  {
    TailIsALine(lines);
  }

  lemma {:induction false} TailIsALine(lines: seq<Line>)
    requires TailLine(lines).Some?
    ensures exists i :: 0 <= i < |lines| && lines[i] == TailLine(lines).value
  {
    var n := |lines| - 1;
    if lines[n].Blank? {
      TailIsALine(lines[..n]);
      var i :| 0 <= i < n && lines[..n][i] == TailLine(lines[..n]).value;
      assert lines[i] == TailLine(lines).value;
    }
  }

  function RunOperations(hs: Hashes, s: Store, ops: seq<Operation>): Store {
    if |ops| == 0 then s else Apply(hs, RunOperations(hs, s, ops[..|ops| - 1]), ops[|ops| - 1])
  }

  /** Every archive name is new when it is used. */
  predicate FreshNames(hs: Hashes, s: Store, ops: seq<Operation>) {
    forall i :: 0 <= i < |ops| ==> ops[i].name !in RunOperations(hs, s, ops[..i]).archives
  }

  /** No run of appends and plain archives makes a corrupt log verify. */
  lemma {:induction false} CorruptionIsSticky(hs: Hashes, s: Store, ops: seq<Operation>)
    requires Unrecoverable(hs, s) && FreshNames(hs, s, ops)
    ensures Unrecoverable(hs, RunOperations(hs, s, ops)) && !Verifies(hs, RunOperations(hs, s, ops))
    decreases |ops|
  {
    if |ops| > 0 {
      var n := |ops| - 1;
      forall i | 0 <= i < n
        ensures ops[..n][i].name !in RunOperations(hs, s, ops[..n][..i]).archives
      {
        assert ops[..n][..i] == ops[..i] && ops[..n][i] == ops[i];
      }
      CorruptionIsSticky(hs, s, ops[..n]);
      var t := RunOperations(hs, s, ops[..n]);
      if CorruptLog(hs, t) {
        CorruptStep(hs, t, ops[n]);
      } else {
        TaintedStep(hs, t, ops[n]);
      }
    }
    UnrecoverableFailsVerify(hs, RunOperations(hs, s, ops));
  }

  // ---- and only such corruption stays ---------------------------------------------------------------

  lemma {:induction false} NameBound(names: set<Name>) returns (bound: Name)
    ensures forall n :: n in names ==> n < bound
    decreases |names|
  {
    if names == {} {
      bound := 0;
    } else {
      var n :| n in names;
      var rest := NameBound(names - {n});
      bound := if n < rest then rest else n + 1;
      forall m | m in names
        ensures m < bound
      {
        assert m == n || m in names - {n};
      }
    }
  }

  lemma RunOne(hs: Hashes, s: Store, op: Operation)
    requires op.name !in s.archives
    ensures FreshNames(hs, s, [op]) && RunOperations(hs, s, [op]) == Apply(hs, s, op)
  {
    assert [op][..0] == [];
  }

  lemma RunTwo(hs: Hashes, s: Store, a: Operation, b: Operation)
    requires a.name !in s.archives && b.name !in Apply(hs, s, a).archives
    ensures FreshNames(hs, s, [a, b]) && RunOperations(hs, s, [a, b]) == Apply(hs, Apply(hs, s, a), b)
  {
    RunOne(hs, s, a);
    assert [a, b][..1] == [a] && [a, b][..0] == [];
  }

  /** A rotation that records the old log as legacy or torn starts a chain that verifies. */
  lemma AcceptedRotation(hs: Hashes, s: Store, payload: string, chainId: string, name: Name, kind: Kind)
    requires s.log.Some? && AcceptedKind(kind)
    ensures Verifies(hs, Rotate(hs, s, payload, chainId, name, kind, Completed))
  {
    RotatedVerifies(hs, s, payload, chainId, name, kind);
  }

  /** Lines that do not verify and are not corrupt in the sense above: at most two operations mend the log. */
  lemma OtherwiseMended(hs: Hashes, s: Store) returns (ops: seq<Operation>)
    requires s.log.Some? && !ReportOf(hs, s.log.value.lines).valid && !CorruptLog(hs, s)
    ensures |ops| <= 2 && FreshNames(hs, s, ops) && Verifies(hs, RunOperations(hs, s, ops))
  {
    var lines := s.log.value.lines;
    var name := NameBound(s.archives.Keys);
    var plain := AppendEvent(Entry("", NoLink), "", name);
    if WhollyLegacy(lines) {
      ops := [ArchiveLog("", name)];
      RunOne(hs, s, ops[0]);
      AcceptedRotation(hs, s, "audit_archive", "", name, LegacyKind);
    } else if Replays(hs, s.log.value) {
      var entry :| ReplayedBy(hs, lines, entry);
      ops := [AppendEvent(entry, "", name), plain];
      ReplayEscapes(hs, s, ops[0], plain);
      RunTwo(hs, s, ops[0], plain);
    } else {
      TailExists(hs, lines);
      ops := [plain];
      RunOne(hs, s, plain);
      var tail := TailLine(lines).value;
      AcceptedRotation(hs, s, "", "", name, if tail.Garbled? || tail.Spaces? then TornKind else LegacyKind);
    }
  }

  lemma {:induction false} TailExists(hs: Hashes, lines: seq<Line>)
    requires !ReportOf(hs, lines).valid
    ensures TailLine(lines).Some? && !TailLine(lines).value.Blank?
  {
    if lines[|lines| - 1].Blank? {
      TailExists(hs, lines[..|lines| - 1]);
    }
  }

  /** The glued line looks torn over sound lines the replayed head names, and is archived as such. */
  lemma ReplayEscapes(hs: Hashes, s: Store, replay: Operation, next: Operation)
    requires s.log.Some? && Replays(hs, s.log.value) && replay.AppendEvent? && next.AppendEvent?
    requires ReplayedBy(hs, s.log.value.lines, replay.entry)
    ensures Apply(hs, s, replay).archives == s.archives
    ensures Verifies(hs, Apply(hs, Apply(hs, s, replay), next))
  {
    hide ScanLines, WhollyLegacy, HeadMatches, Verifies, Rotate, ParseTip;
    var lines := s.log.value.lines;
    var pre := lines[..|lines| - 1];
    ChainedAppend(hs, s, replay);
    var t := Apply(hs, s, replay);
    assert t.log == Some(File(pre + [Garbled("glued")], true));
    MalformedTail(hs, pre, "glued", t.head);
    AcceptedRotation(hs, t, next.entry.payload, next.chainId, next.name, TornKind);
  }

  /** A log with a bad line fails to verify after every run exactly when it is corrupt in the sense above. */
  lemma CorruptionIsStickyIff(hs: Hashes, s: Store)
    requires s.log.Some? && !ReportOf(hs, s.log.value.lines).valid
    ensures CorruptLog(hs, s) <==>
            forall ops :: FreshNames(hs, s, ops) ==> !Verifies(hs, RunOperations(hs, s, ops))
  {
    if CorruptLog(hs, s) {
      forall ops | FreshNames(hs, s, ops)
        ensures !Verifies(hs, RunOperations(hs, s, ops))
      {
        CorruptionIsSticky(hs, s, ops);
      }
    } else {
      var ops := OtherwiseMended(hs, s);
    }
  }

  /** In plain terms: a copy, without its newline, of the event second or third from the end of the
      sound lines before it. */
  lemma ReplaysIff(hs: Hashes, f: File)
    requires InjectiveOnEvents(hs) && |f.lines| > 1
    requires |Events(f.lines[..|f.lines| - 1])| <= MAX_U64
    ensures var pre, last := f.lines[..|f.lines| - 1], f.lines[|f.lines| - 1];
            Replays(hs, f) <==> !f.terminated && ReportOf(hs, pre).valid && CopiesNearEnd(Events(pre), last)
  {
    var pre, last := f.lines[..|f.lines| - 1], f.lines[|f.lines| - 1];
    if !f.terminated && ReportOf(hs, pre).valid {
      ValidReport(hs, pre);
      if Replays(hs, f) {
        var entry :| ReplayedBy(hs, f.lines, entry);
        ReplayIsCopy(hs, pre, last, entry);
      } else if CopiesNearEnd(Events(pre), last) {
        CopyIsReplay(hs, f.lines);
      }
    }
  }

  predicate CopiesNearEnd(es: seq<Line>, last: Line) {
    (|es| >= 2 && last == es[|es| - 2]) || (|es| >= 3 && last == es[|es| - 3])
  }

  /** In a chain, an event signed after a given tip stands right behind the event with that hash. */
  lemma SuccessorOf(hs: Hashes, es: seq<Line>, i: nat, last: Line, entry: Entry)
    requires InjectiveOnEvents(hs) && IsChain(hs, es) && i < |es| <= MAX_U64
    requires LineTip(hs, last).Some? && LineTip(hs, last).value.sequence < MAX_U64
    requires LineTip(hs, es[i]).value.thisHash == NextEvent(hs, LineTip(hs, last), entry, "").thisHash.value
    ensures i > 0 && last == es[i - 1]
  {
    var tip := LineTip(hs, last).value;
    assert es[i].event.unsigned == NextEvent(hs, Some(tip), entry, "").unsigned;
    assert LinkedAt(hs, es, i);
    SameHashSameLine(hs, last, es[i - 1]);
  }

  lemma ReplayIsCopy(hs: Hashes, pre: seq<Line>, last: Line, entry: Entry)
    requires InjectiveOnEvents(hs) && |Events(pre)| <= MAX_U64
    requires LineTip(hs, last).Some? && LineTip(hs, last).value.sequence < MAX_U64
    requires var lines := pre + [last]; LineTip(hs, lines[|pre|]).Some? && ReplayedBy(hs, lines, entry)
    ensures CopiesNearEnd(Events(pre), last)
  {
    hide ScanLines, WhollyLegacy, ParseTip, Events;
    var es := Events(pre);
    var n := |es|;
    assert (pre + [last])[..|pre|] == pre;
    ValidReport(hs, pre);
    assert LinkedAt(hs, es, n - 1);
    var signed := NextEvent(hs, LineTip(hs, last), entry, "");
    if signed.unsigned.sequence.value == n && signed.thisHash.value == LineTip(hs, es[n - 1]).value.thisHash {
      SuccessorOf(hs, es, n - 1, last, entry);
    } else {
      assert n > 1 && signed.thisHash.value == LineTip(hs, es[n - 2]).value.thisHash;
      SuccessorOf(hs, es, n - 2, last, entry);
    }
  }

  lemma CopyIsReplay(hs: Hashes, lines: seq<Line>)
    requires |lines| > 1 && ReportOf(hs, lines[..|lines| - 1]).valid && |Events(lines[..|lines| - 1])| <= MAX_U64
    requires CopiesNearEnd(Events(lines[..|lines| - 1]), lines[|lines| - 1])
    ensures LineTip(hs, lines[|lines| - 1]).Some? && LineTip(hs, lines[|lines| - 1]).value.sequence < MAX_U64
    ensures exists entry :: ReplayedBy(hs, lines, entry)
  {
    hide ScanLines, WhollyLegacy, Events;
    var es, last := Events(lines[..|lines| - 1]), lines[|lines| - 1];
    var n := |es|;
    ValidReport(hs, lines[..|lines| - 1]);
    var k := if last == es[n - 2] then n - 2 else n - 3;
    assert LinkedAt(hs, es, k) && LinkedAt(hs, es, k + 1) && LinkedAt(hs, es, n - 1);
    var entry := es[k + 1].event.unsigned.entry;
    var signed := NextEvent(hs, LineTip(hs, last), entry, "");
    assert signed.unsigned == es[k + 1].event.unsigned;
    assert ReplayedBy(hs, lines, entry);
  }

  /** Such a replay: two sound events, then the first of them again without its newline. Appending
      the second entry once more regenerates the head that sound lines carry. */
  lemma UnterminatedReplayEscapes(hs: Hashes, a: Entry, b: Entry, chainId: string, c: Entry, name: Name)
    ensures var first := Signed(hs, a, chainId, 1, GENESIS);
            var second := Signed(hs, b, chainId, 2, first.thisHash.value);
            var lines := [Object(first), Object(second), Object(first)];
            var s := Store(Some(File(lines, false)), HeadFor(second), map[]);
            && !ReportOf(hs, lines).valid
            && Verifies(hs, Apply(hs, Apply(hs, s, AppendEvent(b, chainId, name)), AppendEvent(c, chainId, name)))
  {
    var first := Signed(hs, a, chainId, 1, GENESIS);
    var second := Signed(hs, b, chainId, 2, first.thisHash.value);
    var lines := [Object(first), Object(second), Object(first)];
    var s := Store(Some(File(lines, false)), HeadFor(second), map[]);
    hide ScanLines, Verifies, Apply, HeadMatches, Utf8;
    SignedParses(hs, a, chainId, 1, GENESIS);
    TwoSigned(hs, a, b, chainId);
    assert lines[..2] == [Object(first), Object(second)];
    assert ReplayedBy(hs, lines, b);
    ReplayEscapes(hs, s, AppendEvent(b, chainId, name), AppendEvent(c, chainId, name));
    ThirdIsNotFirst(hs, lines);
  }

  lemma TwoSigned(hs: Hashes, a: Entry, b: Entry, chainId: string)
    ensures var first := Signed(hs, a, chainId, 1, GENESIS);
            var second := Signed(hs, b, chainId, 2, first.thisHash.value);
            var r := ReportOf(hs, [Object(first), Object(second)]);
            r.valid && HeadMatches(r, HeadFor(second))
  {
    var first := Signed(hs, a, chainId, 1, GENESIS);
    var second := Signed(hs, b, chainId, 2, first.thisHash.value);
    SignedParses(hs, a, chainId, 1, GENESIS);
    assert [] + [Object(first)] == [Object(first)];
    NextEventReport(hs, [], a, chainId);
    assert Events([Object(first)]) == [Object(first)];
    NextEventReport(hs, [Object(first)], b, chainId);
    assert [Object(first)] + [Object(second)] == [Object(first), Object(second)];
  }

  lemma ThirdIsNotFirst(hs: Hashes, lines: seq<Line>)
    requires |lines| == 3 && (forall i :: 0 <= i < 3 ==> !Skipped(lines[i]) && LineTip(hs, lines[i]).Some?)
    requires LineTip(hs, lines[2]).value.sequence == 1
    ensures !ReportOf(hs, lines).valid
  {
    ReportMeaning(hs, lines);
    assert lines[..2][..1] == lines[..1] && lines[..1][..0] == [];
    assert Events(lines[..1]) == [lines[0]];
    assert Events(lines[..2]) == Events(lines[..1]) + [lines[1]];
    assert Events(lines) == Events(lines[..2]) + [lines[2]];
    assert !LinkedAt(hs, lines, 2);
  }

  /** A crash is the way out: one torn append and one completed append, and a log already marked
      invalid verifies again. */
  lemma TornAppendLaundersTaint(hs: Hashes, s: Store, first: Attempt, second: Attempt)
    requires TaintedLog(hs, s) && EndsInEvent(hs, s, 1)
    requires ReportOf(hs, s.log.value.lines).valid && HeadMatches(ReportOf(hs, s.log.value.lines), s.head)
    requires first.crash.TornLine? && second.crash.Completed?
    ensures !Verifies(hs, s) && Verifies(hs, Retry(hs, s, first, second))
  {
    UnrecoverableFailsVerify(hs, s);
    TornRetry(hs, s, first, second);
  }

  /** Quarantine clears an invalid log exactly when its own lines are at fault, or when they and the
      archives behind them were sound all along. */
  lemma QuarantineClearsIff(hs: Hashes, s: Store, chainId: string, name: Name)
    requires s.log.Some? && s.log.value.lines != [] && !Verifies(hs, s) && !LegacyReport(s)
    ensures var lines := s.log.value.lines;
            Verifies(hs, Archive(hs, s, chainId, name, true)) <==>
            !ReportOf(hs, lines).valid
            || (!WhollyLegacy(lines) && LinkValid(hs, s.archives[name := s.log.value], FirstLink(lines), 1, {name}))
  {
    var lines := s.log.value.lines;
    var kind := if ReportOf(hs, lines).valid then ChainKind
                else if WhollyLegacy(lines) then LegacyKind else QuarantinedKind;
    RotatedVerifies(hs, s, "audit_archive", chainId, name, kind);
    assert {} + {name} == {name};
  }

  /** What ends the refusals after a tear inside a character: an archive starts a chain that takes appends
      again, but only quarantine one that verifies, the log being corrupt. */
  lemma TornCharacterNeedsQuarantine(hs: Hashes, s: Store, chainId: string, name: Name)
    requires s.log.Some? && TailLine(s.log.value.lines) == Some(NotUtf8)
    ensures CorruptLog(hs, s) && Verifies(hs, Archive(hs, s, chainId, name, true))
    ensures TaintedLog(hs, Archive(hs, s, chainId, name, false))
  {
    var lines := s.log.value.lines;
    TailIsALine(lines);
    NotUtf8Refuses(hs, s, []);
    assert !ReportOf(hs, lines).valid && !WhollyLegacy(lines);
    RotatedTaint(hs, s, "audit_archive", chainId, name, InvalidKind, 0);
    QuarantineClearsIff(hs, s, chainId, name);
  }

  /** So a log whose lines are sound but whose link is tainted cannot be quarantined away. */
  lemma QuarantineCannotClearTaint(hs: Hashes, s: Store, chainId: string, name: Name)
    requires TaintedLog(hs, s) && ReportOf(hs, s.log.value.lines).valid && name !in s.archives
    ensures !Verifies(hs, Archive(hs, s, chainId, name, true))
  {
    var lines := s.log.value.lines;
    UnrecoverableFailsVerify(hs, s);
    NotLegacyTail(hs, lines);
    QuarantineClearsIff(hs, s, chainId, name);
    var steps: nat :| TaintedLink(s.archives, FirstLink(lines), steps);
    TaintedLinkGrows(s.archives, FirstLink(lines), steps, name, s.log.value);
    TaintedLinkInvalid(hs, s.archives[name := s.log.value], FirstLink(lines), steps, 1, {name});
  }
}
