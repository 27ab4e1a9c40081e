/**
 What verification of the audit log asks of the lines, the head file and the archives, written out
 field by field, and what an append and an archive make of the file.
 */
module AuditRules {
  import opened Wrappers
  import opened AuditLog

  const LARGEST: nat := 18_446_744_073_709_551_615

  // ---- one line -----------------------------------------------------------------------------------

  /** Sixty-four zeros stand for the predecessor of the first event. */
  lemma GenesisRule()
    ensures |GENESIS| == 64 && forall i :: 0 <= i < 64 ==> GENESIS[i] == '0'
  {
  }

  /** A line of format version one with these chain fields, whose digest covers all the rest of it. */
  ghost predicate SignedAs(hs: Hashes, l: Line, id: string, sequence: nat, prev: Hash, hash: Hash) {
    && l.Object? && hs.event(l.event.unsigned) == hash
    && l.event == Event(Unsigned(Has(1), Has(id), Has(sequence), Has(prev), l.event.unsigned.entry), Has(hash))
  }

  /** A line is an event of some chain exactly when it is signed and numbered from one to the largest
      64-bit number, and the first of a chain names no predecessor. */
  lemma TipRule(hs: Hashes, l: Line, t: Tip)
    ensures LineTip(hs, l) == Some(t) <==>
            && SignedAs(hs, l, t.chainId, t.sequence, t.prev, t.thisHash)
            && 1 <= t.sequence <= LARGEST && (t.sequence == 1 ==> t.prev == GENESIS)
  {
  }

  /** An object with no chain field at all is what the log held before it was chained. */
  ghost predicate Unchained(l: Line) {
    l.Object? && l.event == Event(Unsigned(Missing, Missing, Missing, Missing, l.event.unsigned.entry), Missing)
  }

  lemma ChainedRule(e: Event)
    ensures HasChainField(e) <==> !Unchained(Object(e))
  {
  }

  /** Empty lines and lines of white space count for nothing; every other line counts. */
  lemma CountingRule(lines: seq<Line>, l: Line)
    ensures Events([]) == [] && Events(lines + [l]) == Events(lines) + (if l in {Blank, Spaces} then [] else [l])
  {
    assert (lines + [l])[..|lines|] == lines;
  }

  // ---- the lines of a file ------------------------------------------------------------------------

  function NumberAt(i: nat): nat {
    if i < LARGEST then i + 1 else LARGEST
  }

  /** The i-th of these lines is signed with the i-th of these digests and its predecessor's. */
  ghost predicate LinkedLine(hs: Hashes, es: seq<Line>, id: string, hashes: seq<Hash>, i: nat)
    requires i < |es| == |hashes|
  {
    SignedAs(hs, es[i], id, NumberAt(i), if i == 0 then GENESIS else hashes[i - 1], hashes[i])
  }

  ghost predicate ChainOf(hs: Hashes, es: seq<Line>, id: string, hashes: seq<Hash>) {
    |es| == |hashes| && forall i :: 0 <= i < |es| ==> LinkedLine(hs, es, id, hashes, i)
  }

  function TipAt(id: string, hashes: seq<Hash>, i: nat): Tip
    requires i < |hashes|
  {
    Tip(id, NumberAt(i), if i == 0 then GENESIS else hashes[i - 1], hashes[i])
  }

  ghost predicate TipsAre(hs: Hashes, es: seq<Line>, id: string, hashes: seq<Hash>) {
    |es| == |hashes| && forall i :: 0 <= i < |es| ==> LineTip(hs, es[i]) == Some(TipAt(id, hashes, i))
  }

  lemma ChainTips(hs: Hashes, es: seq<Line>, id: string, hashes: seq<Hash>)
    requires ChainOf(hs, es, id, hashes)
    ensures TipsAre(hs, es, id, hashes) && IsChain(hs, es)
  {
    forall i | 0 <= i < |es|
      ensures LineTip(hs, es[i]) == Some(TipAt(id, hashes, i))
    {
      assert LinkedLine(hs, es, id, hashes, i);
      TipRule(hs, es[i], TipAt(id, hashes, i));
    }
    TipsLinked(hs, es, id, hashes);
  }

  lemma TipsLinked(hs: Hashes, es: seq<Line>, id: string, hashes: seq<Hash>)
    requires TipsAre(hs, es, id, hashes)
    ensures IsChain(hs, es)
  {
    hide LineTip;
    assert forall i :: 0 <= i < |es| ==> LineTip(hs, es[i]) == Some(TipAt(id, hashes, i));
  }

  lemma TipsChain(hs: Hashes, es: seq<Line>) returns (id: string, hashes: seq<Hash>)
    requires IsChain(hs, es)
    ensures ChainOf(hs, es, id, hashes)
  {
    hide LineTip, IsChain;
    ChainParts(hs, es);
    id := if es == [] then "" else LineTip(hs, es[0]).value.chainId;
    hashes := seq(|es|, i requires 0 <= i < |es| => LineTip(hs, es[i]).value.thisHash);
    forall i | 0 <= i < |es|
      ensures LinkedLine(hs, es, id, hashes, i)
    {
      assert LinkedAt(hs, es, i);
      TipRule(hs, es[i], LineTip(hs, es[i]).value);
    }
  }

  lemma ChainParts(hs: Hashes, es: seq<Line>)
    requires IsChain(hs, es)
    ensures forall i :: 0 <= i < |es| ==> LineTip(hs, es[i]).Some?
    ensures forall i :: 0 <= i < |es| ==> LinkedAt(hs, es, i)
  {
  }

  /** The verifier accepts a file exactly when its lines that count are signed one after the other from
      sixty-four zeros, numbered from one, under one chain id. */
  lemma FileRule(hs: Hashes, lines: seq<Line>)
    ensures ReportOf(hs, lines).valid <==> exists id, hashes :: ChainOf(hs, Events(lines), id, hashes)
  {
    hide ReportOf, ChainOf, IsChain;
    ReportMeaning(hs, lines);
    if ReportOf(hs, lines).valid {
      var id, hashes := TipsChain(hs, Events(lines));
    }
    forall id, hashes | ChainOf(hs, Events(lines), id, hashes)
      ensures ReportOf(hs, lines).valid
    {
      ChainTips(hs, Events(lines), id, hashes);
    }
  }

  /** The head names the last line, or the one before it; of an empty log there is none. */
  ghost predicate HeadNames(head: Option<HeadFile>, id: string, hashes: seq<Hash>) {
    if hashes == [] then head == None
    else
      var n := |hashes|;
      || head == Some(HeadIs(Head(1, id, NumberAt(n - 1), hashes[n - 1])))
      || head == Some(HeadIs(Head(1, id, NumberAt(n - 1) - 1, if n == 1 then GENESIS else hashes[n - 2])))
  }

  lemma HeadFields(n: nat, first: Tip, last: Tip, head: Option<HeadFile>)
    requires n > 0 && last.sequence > 0
    ensures HeadMatches(ChainReport(n, first, last), head) <==>
            || head == Some(HeadIs(Head(1, first.chainId, last.sequence, last.thisHash)))
            || head == Some(HeadIs(Head(1, first.chainId, last.sequence - 1, last.prev)))
  {
  }

  lemma HeadRule(hs: Hashes, lines: seq<Line>, head: Option<HeadFile>, id: string, hashes: seq<Hash>)
    requires ChainOf(hs, Events(lines), id, hashes)
    ensures HeadMatches(ReportOf(hs, lines), head) <==> HeadNames(head, id, hashes)
  {
    hide ScanLines, Events, IsChain, LineTip, ChainOf, HeadMatches, ReportOf;
    var es := Events(lines);
    ChainTips(hs, es, id, hashes);
    ReportMeaning(hs, lines);
    if es != [] {
      assert LineTip(hs, es[0]) == Some(TipAt(id, hashes, 0));
      assert LineTip(hs, es[|es| - 1]) == Some(TipAt(id, hashes, |es| - 1));
      HeadFields(|es|, TipAt(id, hashes, 0), TipAt(id, hashes, |es| - 1), head);
    } else {
      assert hashes == [] && ReportOf(hs, lines) == EMPTY_REPORT;
      HeadOfNothing(head);
    }
  }

  lemma HeadOfNothing(head: Option<HeadFile>)
    ensures HeadMatches(EMPTY_REPORT, head) <==> head == None
  {
  }

  /** Nothing but unchained objects, and at least one. */
  ghost predicate AllUnchained(es: seq<Line>) {
    es != [] && forall i :: 0 <= i < |es| ==> Unchained(es[i])
  }

  lemma {:induction false} EventsAre(lines: seq<Line>, l: Line)
    ensures l in Events(lines) <==> l in lines && l !in {Blank, Spaces}
  {
    if lines != [] {
      var n := |lines| - 1;
      EventsAre(lines[..n], l);
      assert lines == lines[..n] + [lines[n]];
    }
  }

  lemma LegacyRule(lines: seq<Line>)
    ensures WhollyLegacy(lines) <==> AllUnchained(Events(lines))
  {
    forall l
      ensures l in Events(lines) <==> l in lines && l !in {Blank, Spaces}
    {
      EventsAre(lines, l);
    }
    var es := Events(lines);
    if WhollyLegacy(lines) {
      var i :| 0 <= i < |lines| && !Skipped(lines[i]);
      assert lines[i] in es;
      forall k | 0 <= k < |es|
        ensures Unchained(es[k])
      {
        assert es[k] in lines;
      }
    }
    if AllUnchained(es) {
      assert es[0] in lines;
      forall i | 0 <= i < |lines| && !Skipped(lines[i])
        ensures Unchained(lines[i])
      {
        assert lines[i] in es;
      }
    }
  }

  /** The link of a file is that of its first line that counts, if the file is text and the line an object. */
  lemma FirstLinkRule(lines: seq<Line>)
    ensures FirstLink(lines) ==
      if NotUtf8 in lines || Events(lines) == [] || !Events(lines)[0].Object? then NoLink
      else Events(lines)[0].event.unsigned.entry.link
  {
  }

  // ---- the archives behind it ---------------------------------------------------------------------

  /** The archive a link names is there with the digest it names. */
  ghost predicate Named(hs: Hashes, archives: map<Name, File>, link: Link) {
    link.LinkTo? && link.name in archives && hs.file(archives[link.name]) == link.sha
  }

  /** A file whose lines form a chain and are not all from before it. */
  ghost predicate SoundLines(hs: Hashes, lines: seq<Line>) {
    !WhollyLegacy(lines) && ReportOf(hs, lines).valid
  }

  /** From a link through these chain archives, each sound and there with its digest, to no link, or to an
      archive set apart as legacy, torn or quarantined, which is there with its digest and not read. */
  ghost predicate LeadsBack(hs: Hashes, archives: map<Name, File>, link: Link, chain: seq<Name>)
    decreases |chain|
  {
    if chain == [] then
      link == NoLink || (Named(hs, archives, link) && link.kind in {LegacyKind, TornKind, QuarantinedKind})
    else
      && Named(hs, archives, link) && link.name == chain[0] && link.kind == ChainKind
      && SoundLines(hs, archives[chain[0]].lines)
      && LeadsBack(hs, archives, FirstLink(archives[chain[0]].lines), chain[1..])
  }

  ghost predicate Apart(chain: seq<Name>, visited: set<Name>) {
    && (forall i :: 0 <= i < |chain| ==> chain[i] !in visited)
    && (forall i, j :: 0 <= i < j < |chain| ==> chain[i] != chain[j])
  }

  lemma ApartFirst(chain: seq<Name>, visited: set<Name>)
    requires chain != []
    ensures Apart(chain, visited) <==> chain[0] !in visited && Apart(chain[1..], visited + {chain[0]})
  {
    var rest := chain[1..];
    if Apart(chain, visited) {
      assert forall i :: 0 <= i < |rest| ==> rest[i] == chain[i + 1];
    }
    if chain[0] !in visited && Apart(rest, visited + {chain[0]}) {
      assert forall i :: 0 < i < |chain| ==> chain[i] == rest[i - 1];
    }
  }

  lemma {:induction false} PathValid(
    hs: Hashes, archives: map<Name, File>, link: Link, depth: nat, visited: set<Name>, chain: seq<Name>)
    requires LeadsBack(hs, archives, link, chain) && Apart(chain, visited) && depth + |chain| <= 64
    ensures LinkValid(hs, archives, link, depth, visited)
    decreases |chain|
  {
    if chain != [] {
      ApartFirst(chain, visited);
      PathValid(hs, archives, FirstLink(archives[chain[0]].lines), depth + 1, visited + {chain[0]}, chain[1..]);
      hide ReportOf, WhollyLegacy, FirstLink;
    }
  }

  lemma {:induction false} ValidPath(
    hs: Hashes, archives: map<Name, File>, link: Link, depth: nat, visited: set<Name>) returns (chain: seq<Name>)
    requires LinkValid(hs, archives, link, depth, visited) && depth <= 64
    ensures LeadsBack(hs, archives, link, chain) && Apart(chain, visited) && depth + |chain| <= 64
    decreases 64 - depth
  {
    hide ReportOf, WhollyLegacy, FirstLink;
    chain := [];
    if link.LinkTo? && link.kind == ChainKind {
      var name := link.name;
      var rest := ValidPath(hs, archives, FirstLink(archives[name].lines), depth + 1, visited + {name});
      chain := [name] + rest;
      assert chain[1..] == rest;
      ApartFirst(chain, visited);
    }
  }

  /** A link is good exactly when it leads back through at most sixty-four different chain archives. */
  lemma LinkRule(hs: Hashes, archives: map<Name, File>, link: Link)
    ensures LinkValid(hs, archives, link, 0, {}) <==>
            exists chain :: LeadsBack(hs, archives, link, chain) && Apart(chain, {}) && |chain| <= 64
  {
    hide LeadsBack, Apart;
    if LinkValid(hs, archives, link, 0, {}) {
      var chain := ValidPath(hs, archives, link, 0, {});
    }
    forall chain | LeadsBack(hs, archives, link, chain) && Apart(chain, {}) && |chain| <= 64
      ensures LinkValid(hs, archives, link, 0, {})
    {
      PathValid(hs, archives, link, 0, {}, chain);
    }
  }

  /** A store verifies exactly when there is neither log nor head; or the lines form a chain, the head names
      its end, and the first event's link leads back through different sound archives. */
  lemma VerifiesRule(hs: Hashes, s: Store)
    ensures s.log.None? ==> (Verifies(hs, s) <==> s.head == None)
    ensures s.log.Some? ==>
              (Verifies(hs, s) <==>
               exists id, hashes, chain ::
                 && ChainOf(hs, Events(s.log.value.lines), id, hashes) && HeadNames(s.head, id, hashes)
                 && LeadsBack(hs, s.archives, FirstLink(s.log.value.lines), chain) && Apart(chain, {}) && |chain| <= 64)
  {
    if s.log.Some? {
      var lines := s.log.value.lines;
      hide ReportOf, HeadMatches, WhollyLegacy, LinkValid, FirstLink, Events, ChainOf, HeadNames, LeadsBack, Apart;
      FileRule(hs, lines);
      LinkRule(hs, s.archives, FirstLink(lines));
      forall id, hashes | ChainOf(hs, Events(lines), id, hashes)
        ensures HeadMatches(ReportOf(hs, lines), s.head) <==> HeadNames(s.head, id, hashes)
        ensures !WhollyLegacy(lines)
      {
        HeadRule(hs, lines, s.head, id, hashes);
        ChainNotLegacy(hs, lines, id, hashes);
      }
    }
  }

  lemma ChainNotLegacy(hs: Hashes, lines: seq<Line>, id: string, hashes: seq<Hash>)
    requires ChainOf(hs, Events(lines), id, hashes)
    ensures !WhollyLegacy(lines)
  {
    LegacyRule(lines);
    hide WhollyLegacy, Events;
    if Events(lines) != [] {
      assert LinkedLine(hs, Events(lines), id, hashes, 0);
    }
  }

  // ---- what an append finds and leaves -------------------------------------------------------------

  predicate AllBlank(lines: seq<Line>) {
    forall i :: 0 <= i < |lines| ==> lines[i] == Blank
  }

  /** The last line an append looks at is the last that is not empty; what precedes it is the rest. */
  lemma {:induction false} TailRule(before: seq<Line>, l: Line, after: seq<Line>)
    requires l != Blank && AllBlank(after)
    ensures TailLine(before + [l] + after) == Some(l)
    ensures PrefixBeforeTail(before + [l] + after) == if before == [] then None else Some(before)
    decreases |after|
  {
    var all := before + [l] + after;
    if after == [] {
      assert all == before + [l] && all[..|all| - 1] == before;
    } else {
      var n := |after| - 1;
      TailRule(before, l, after[..n]);
      assert all[..|all| - 1] == before + [l] + after[..n] && all[|all| - 1] == Blank;
    }
  }

  lemma {:induction false} NoTailRule(lines: seq<Line>)
    requires AllBlank(lines)
    ensures TailLine(lines) == None && PrefixBeforeTail(lines) == None
  {
    if lines != [] {
      NoTailRule(lines[..|lines| - 1]);
    }
  }

  /** A line written to a file is its own line when the file ended in a newline, and joins the last one when
      it did not: white space in front does no harm, a broken character stays broken, and with anything
      else the two together are no line the verifier knows. */
  lemma WriteRule(f: File, l: Line)
    ensures f.terminated || f.lines == [] ==> WriteLine(f, l) == f.lines + [l]
    ensures !f.terminated && f.lines != [] ==>
              var n, last := |f.lines| - 1, f.lines[|f.lines| - 1];
              && |WriteLine(f, l)| == n + 1 && WriteLine(f, l)[..n] == f.lines[..n]
              && (last in {Blank, Spaces} ==> WriteLine(f, l)[n] == l)
              && (last == NotUtf8 ==> WriteLine(f, l)[n] == NotUtf8)
              && (l == NotUtf8 ==> WriteLine(f, l)[n] == NotUtf8)
              && (last !in {Blank, Spaces, NotUtf8} && l != NotUtf8 ==> WriteLine(f, l)[n].Garbled?)
  {
  }

  /** Archiving does nothing without a log, drops an empty one with its head, and quarantines only what does
      not verify, be it a chain or an unchained log without a head. Otherwise the file is kept as an
      archive of its kind, and a chain of one event that names it takes its place. */
  lemma ArchiveRule(hs: Hashes, s: Store, chainId: string, name: Name, acknowledge: bool)
    ensures var t := Archive(hs, s, chainId, name, acknowledge);
      match s.log
      case None => t == s
      case Some(f) =>
        var legacy := AllUnchained(Events(f.lines));
        if f.lines == [] then t == s.(log := None, head := None)
        else if acknowledge && (Verifies(hs, s) || (legacy && s.head == None)) then t == s
        else
          && t.archives == s.archives[name := f]
          && t.log.Some? && t.log.value.terminated && |t.log.value.lines| == 1
          && var e := t.log.value.lines[0];
             && e.Object? && SignedAs(hs, e, chainId, 1, GENESIS, hs.event(e.event.unsigned))
             && e.event.unsigned.entry.link
                == LinkTo(name, hs.file(f), if ReportOf(hs, f.lines).valid then ChainKind
                                            else if legacy then LegacyKind
                                            else if acknowledge then QuarantinedKind else InvalidKind)
             && t.head == Some(HeadIs(Head(1, chainId, 1, hs.event(e.event.unsigned))))
  {
    hide Verifies, WhollyLegacy, ReportOf, Events;
    if s.log.Some? {
      LegacyRule(s.log.value.lines);
    }
  }
}
