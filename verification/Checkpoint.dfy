/**
 Workspace checkpoints over an overlay: allocating an id, moving the upper layer into a new
 checkpoint, and restoring one by staging a copy and swapping it in. Every operation may stop at
 any of its steps.
 */
module Checkpoint {
  import opened Wrappers
  import opened Decimals

  // ---- directory trees --------------------------------------------------------------------------

  /** `Device` stands for anything that is neither a regular file, a link nor a directory. */
  datatype Node = File(data: string) | Link(target: string) | Dir(entries: Tree) | Device

  type Tree = map<string, Node>

  /** A tree the copier can reproduce. */
  predicate Copyable(n: Node) {
    match n
    case File(_) => true
    case Link(_) => true
    case Dir(entries) => forall name <- entries.Keys :: Copyable(entries[name])
    case Device => false
  }

  /** Links are rebuilt, never followed; a device stops the copy where it is met. */
  method CopyDirRecursive(src: Tree) returns (ok: bool, dst: Tree)
    ensures ok <==> Copyable(Dir(src))
    ensures ok ==> dst == src
    ensures dst.Keys <= src.Keys
    decreases Dir(src)
  {
    dst := map[];
    var left := src.Keys;
    while left != {}
      invariant left <= src.Keys && dst.Keys == src.Keys - left
      invariant forall name <- dst.Keys :: dst[name] == src[name] && Copyable(src[name])
      decreases |left|
    {
      var name :| name in left;
      match src[name] {
        case Link(target) => dst := dst[name := Link(target)];
        case Dir(entries) =>
          var copied, tree := CopyDirRecursive(entries);
          if !copied {
            return false, dst[name := Dir(tree)];
          }
          dst := dst[name := Dir(tree)];
        case File(data) => dst := dst[name := File(data)];
        case Device => return false, dst;
      }
      left := left - {name};
    }
    return true, dst;
  }

  // ---- the overlay directory --------------------------------------------------------------------

  datatype Meta = Meta(id: string, description: string)

  /** An entry of `checkpoints/`: some other file, or a directory with what it holds so far. */
  datatype Entry = Plain | Held(meta: Option<Meta>, layer: Option<Tree>)

  type Entries = map<string, Entry>

  datatype State = State(
    upper: Option<Tree>, staged: Option<Tree>, aside: Option<Tree>, work: Option<Tree>, checkpoints: Entries)

  predicate Hidden(name: string) {
    name != "" && name[0] == '.'
  }

  // ---- ids --------------------------------------------------------------------------------------

  const U32_MAX: nat := 0xFFFF_FFFF

  const LAST_ID: nat := 999_999

  /** The number padded to three digits. */
  function IdText(n: nat): (ds: Digits)
    ensures |ds| >= 3 && Value(ds) == n
  {
    var ds := NaturalDigits(n);
    if |ds| < 3 then
      ValueConcat(Zeros(3 - |ds|), ds);
      ValueOfZeros(Zeros(3 - |ds|));
      Zeros(3 - |ds|) + ds
    else ds
  }

  function BeforeDash(name: string): string {
    if name == "" || name[0] == '-' then "" else [name[0]] + BeforeDash(name[1..])
  }

  predicate AllDigits(s: string) {
    forall i :: 0 <= i < |s| ==> '0' <= s[i] <= '9'
  }

  function ParseU32(s: string): Option<nat> {
    var t := if "+" <= s then s[1..] else s;
    if t != "" && AllDigits(t) && Value(t) <= U32_MAX then Some(Value(t)) else None
  }

  /** The id a directory name claims, hidden names and plain files claiming none. */
  function ClaimedId(checkpoints: Entries, name: string): Option<nat> {
    if name in checkpoints && checkpoints[name].Held? && !Hidden(name) then ParseU32(BeforeDash(name)) else None
  }

  predicate IsHighest(checkpoints: Entries, highest: nat) {
    && (forall name <- checkpoints ::
          ClaimedId(checkpoints, name).Some? ==> ClaimedId(checkpoints, name).value <= highest)
    && (highest == 0 || exists name <- checkpoints :: ClaimedId(checkpoints, name) == Some(highest))
  }

  predicate Lists(listing: seq<string>, checkpoints: Entries) {
    (forall name <- listing :: name in checkpoints) && (forall name <- checkpoints :: name in listing)
  }

  method HighestId(listing: seq<string>, checkpoints: Entries) returns (highest: nat)
    requires Lists(listing, checkpoints)
    ensures IsHighest(checkpoints, highest)
  {
    hide ClaimedId, IsHighest;
    highest := 0;
    var i := 0;
    while i < |listing|
      invariant 0 <= i <= |listing|
      invariant forall k :: 0 <= k < i && ClaimedId(checkpoints, listing[k]).Some? ==>
                  ClaimedId(checkpoints, listing[k]).value <= highest
      invariant highest == 0 || exists k :: 0 <= k < i && ClaimedId(checkpoints, listing[k]) == Some(highest)
    {
      var claimed := ClaimedId(checkpoints, listing[i]);
      if claimed.Some? && claimed.value > highest {
        highest := claimed.value;
      }
      i := i + 1;
    }
    HighestOfAll(listing, checkpoints, highest);
  }

  lemma HighestOfAll(listing: seq<string>, checkpoints: Entries, highest: nat)
    requires Lists(listing, checkpoints)
    requires forall k :: 0 <= k < |listing| && ClaimedId(checkpoints, listing[k]).Some? ==>
               ClaimedId(checkpoints, listing[k]).value <= highest
    requires highest == 0 || exists k :: 0 <= k < |listing| && ClaimedId(checkpoints, listing[k]) == Some(highest)
    ensures IsHighest(checkpoints, highest)
  {
    hide ClaimedId;
    forall name | name in checkpoints && ClaimedId(checkpoints, name).Some?
      ensures ClaimedId(checkpoints, name).value <= highest
    {
      assert name in listing;
    }
    if highest != 0 {
      var k :| 0 <= k < |listing| && ClaimedId(checkpoints, listing[k]) == Some(highest);
      assert listing[k] in listing;
    }
  }

  function DirName(n: nat, slug: string): string {
    if slug == "" then IdText(n) else IdText(n) + "-" + slug
  }

  /** The first number from `n` on whose directory name is free. */
  predicate FirstFree(checkpoints: Entries, slug: string, n: nat, id: nat) {
    && n <= id && (id == n || id <= LAST_ID)
    && DirName(id, slug) !in checkpoints && forall k :: n <= k < id ==> DirName(k, slug) in checkpoints
  }

  /** No name is free: the limit is looked at only after a clash. */
  predicate NoneFree(checkpoints: Entries, slug: string, n: nat) {
    DirName(n, slug) in checkpoints && forall k :: n <= k <= LAST_ID ==> DirName(k, slug) in checkpoints
  }

  method NextFree(checkpoints: Entries, slug: string, first: nat) returns (id: Option<nat>)
    ensures if id.Some? then FirstFree(checkpoints, slug, first, id.value) else NoneFree(checkpoints, slug, first)
  {
    hide DirName;
    var next := first;
    while DirName(next, slug) in checkpoints
      invariant first <= next && (next == first || next <= LAST_ID)
      invariant forall k :: first <= k < next ==> DirName(k, slug) in checkpoints
      decreases if next == first then 1 else 0, LAST_ID - next
    {
      next := next + 1;
      if next > LAST_ID {
        return None;
      }
    }
    return Some(next);
  }

  /** One past the highest claimed id, in 32 bits. */
  function Successor(highest: nat): nat {
    (highest + 1) % (U32_MAX + 1)
  }

  /** The id a create settles on. */
  predicate Allocated(checkpoints: Entries, slug: string, id: nat) {
    exists highest: nat | highest <= U32_MAX ::
      IsHighest(checkpoints, highest) && FirstFree(checkpoints, slug, Successor(highest), id)
  }

  // ---- creating ---------------------------------------------------------------------------------

  /** Where a create may stop; `InWork` while the work directory is being cleared, keeping `left`. */
  datatype CreateStop =
    AtStart | DirMade | MetaWritten | LayerMoved | UpperMade | InWork(left: Option<Tree>) | CreateDone

  function Layer(s: State): Tree {
    if s.upper.Some? then s.upper.value else map[]
  }

  function EntryAt(s: State, meta: Meta, stop: CreateStop): Entry {
    match stop
    case DirMade => Held(None, None)
    case MetaWritten => Held(Some(meta), None)
    case _ => Held(Some(meta), Some(Layer(s)))
  }

  function CreateTo(s: State, dir: string, meta: Meta, stop: CreateStop): State {
    if stop.AtStart? then s
    else
      var t := s.(checkpoints := s.checkpoints[dir := EntryAt(s, meta, stop)]);
      match stop
      case LayerMoved => t.(upper := None)
      case UpperMade => t.(upper := Some(map[]))
      case InWork(left) => t.(upper := Some(map[]), work := left)
      case CreateDone => t.(upper := Some(map[]), work := Some(map[]))
      case _ => t
  }

  // ---- rolling back -----------------------------------------------------------------------------

  /** Where a rollback may stop; deletions and the copy leave any part of a tree behind. */
  datatype RollbackStop =
    | NotBegun
    | ClearingStage(left: Option<Tree>)
    | ClearingAside(left: Option<Tree>)
    | Copying(left: Option<Tree>)
    | Staged
    | MovedAside
    | SwapRefused
    | Swapped
    | Discarding(left: Option<Tree>)
    | ClearingWork(left: Option<Tree>)
    | RollbackDone

  function RollbackTo(s: State, target: Tree, stop: RollbackStop): State {
    var cleared := s.(staged := None, aside := None);
    match stop
    case NotBegun => s
    case ClearingStage(left) => s.(staged := left)
    case ClearingAside(left) => s.(staged := None, aside := left)
    case Copying(left) => cleared.(staged := left)
    case Staged => cleared.(staged := Some(target))
    case MovedAside => cleared.(staged := Some(target), upper := None, aside := s.upper)
    case SwapRefused => cleared.(staged := Some(target))
    case Swapped => cleared.(upper := Some(target), aside := s.upper)
    case Discarding(left) => cleared.(upper := Some(target), aside := left)
    case ClearingWork(left) => cleared.(upper := Some(target), work := left)
    case RollbackDone => cleared.(upper := Some(target), work := Some(map[]))
  }

  predicate Matches(checkpoints: Entries, id: string, name: string) {
    name in checkpoints && checkpoints[name].Held? && !Hidden(name) && (name == id || id + "-" <= name)
  }

  datatype Fault = NotFound | NoLayer | CopyFailed | SwapFailed | NoFreeId | Crashed

  lemma Overwritten(checkpoints: Entries, name: string, first: Entry, second: Entry)
    ensures checkpoints[name := first][name := second] == checkpoints[name := second]
  {
  }

  lemma HighestFits(checkpoints: Entries, highest: nat)
    requires IsHighest(checkpoints, highest)
    ensures highest <= U32_MAX
  {
  }

  class Overlay {
    var upper: Option<Tree>
    var staged: Option<Tree>
    var aside: Option<Tree>
    var work: Option<Tree>
    var checkpoints: Entries

    ghost function Now(): State
      reads this
    {
      State(upper, staged, aside, work, checkpoints)
    }

    constructor (upper: Option<Tree>)
      ensures Now() == State(upper, None, None, None, map[])
    {
      this.upper, staged, aside, work, checkpoints := upper, None, None, None, map[];
    }

    /** Under the create lock: names a free directory, fills it in and starts a fresh upper. */
    method Create(listing: seq<string>, slug: string, description: string, stop: CreateStop)
      returns (r: Result<string, Fault>, id: nat)
      requires Lists(listing, checkpoints)
      modifies this
      ensures r == Failure(NoFreeId) ==> Now() == old(Now())
      ensures r != Failure(NoFreeId) ==>
        && Allocated(old(checkpoints), slug, id)
        && r == (if stop.CreateDone? then Success(IdText(id)) else Failure(Crashed))
        && Now() == CreateTo(old(Now()), DirName(id, slug), Meta(IdText(id), description), stop)
    {
      var highest := HighestId(listing, checkpoints);
      var free := NextFree(checkpoints, slug, Successor(highest));
      if free.None? {
        return Failure(NoFreeId), 0;
      }
      id := free.value;
      HighestFits(checkpoints, highest);
      hide IdText, DirName, FirstFree, IsHighest, Successor;
      r := FillCheckpoint(DirName(id, slug), Meta(IdText(id), description), stop);
    }

    method FillCheckpoint(name: string, meta: Meta, stop: CreateStop) returns (r: Result<string, Fault>)
      modifies this
      ensures r == if stop.CreateDone? then Success(meta.id) else Failure(Crashed)
      ensures Now() == CreateTo(old(Now()), name, meta, stop)
    {
      r := Failure(Crashed);
      if stop.AtStart? {
        return;
      }
      Overwritten(checkpoints, name, Held(None, None), Held(Some(meta), None));
      Overwritten(checkpoints, name, Held(Some(meta), None), Held(Some(meta), Some(Layer(Now()))));
      checkpoints := checkpoints[name := Held(None, None)];
      if stop.DirMade? {
        return;
      }
      checkpoints := checkpoints[name := Held(Some(meta), None)];
      if stop.MetaWritten? {
        return;
      }
      if upper.Some? {
        checkpoints := checkpoints[name := Held(Some(meta), upper)];
        upper := None;
      } else {
        checkpoints := checkpoints[name := Held(Some(meta), Some(map[]))];
      }
      if stop.LayerMoved? {
        return;
      }
      upper := Some(map[]);
      if stop.UpperMade? {
        return;
      }
      if stop.InWork? {
        work := stop.left;
        return;
      }
      work := Some(map[]);
      r := Success(meta.id);
    }

    /** The first directory in listing order that carries the id. */
    method FindCheckpointDir(listing: seq<string>, id: string) returns (name: Option<string>)
      requires Lists(listing, checkpoints)
      ensures name.Some? ==> Matches(checkpoints, id, name.value)
      ensures name.None? ==> forall n :: !Matches(checkpoints, id, n)
    {
      var i := 0;
      while i < |listing|
        invariant 0 <= i <= |listing| && forall k :: 0 <= k < i ==> !Matches(checkpoints, id, listing[k])
      {
        if Matches(checkpoints, id, listing[i]) {
          return Some(listing[i]);
        }
        i := i + 1;
      }
      return None;
    }

    /** Stage-then-swap to a checkpoint's layer, or to an empty upper when no id is given. */
    method Rollback(listing: seq<string>, id: Option<string>, stop: RollbackStop) returns (r: Result<string, Fault>)
      requires Lists(listing, checkpoints)
      modifies this
      ensures r == Failure(NotFound) <==> id.Some? && forall n :: !Matches(old(checkpoints), id.value, n)
      ensures r == Failure(NotFound) || r == Failure(NoLayer) ==> Now() == old(Now())
      ensures r == Failure(NoLayer) ==>
                id.Some? && exists n :: Matches(old(checkpoints), id.value, n) && old(checkpoints)[n].layer.None?
      ensures r != Failure(NotFound) && r != Failure(NoLayer) ==> exists target: Tree ::
        && (if id.None? then target == map[]
            else exists n :: Matches(old(checkpoints), id.value, n) && old(checkpoints)[n].layer == Some(target))
        && Concluded(old(Now()), target, id, stop, Now(), r)
    {
      var target: Tree := map[];
      if id.Some? {
        var name := FindCheckpointDir(listing, id.value);
        if name.None? {
          return Failure(NotFound);
        }
        if checkpoints[name.value].layer.None? {
          return Failure(NoLayer);
        }
        target := checkpoints[name.value].layer.value;
      }
      r := StageAndSwap(target, stop);
      if r.Success? {
        r := Success(if id.Some? then id.value else "base");
      }
    }

    method StageAndSwap(target: Tree, stop: RollbackStop) returns (r: Result<string, Fault>)
      modifies this
      ensures Concluded(old(Now()), target, None, stop, Now(), r)
    {
      r := Failure(Crashed);
      if stop.NotBegun? {
        return;
      }
      if stop.ClearingStage? {
        staged := stop.left;
        return;
      }
      staged := None;
      if stop.ClearingAside? {
        aside := stop.left;
        return;
      }
      aside := None;
      if stop.Copying? {
        staged := stop.left;
        return;
      }
      var copied, tree := CopyDirRecursive(target);
      staged := Some(tree);
      if !copied {
        return Failure(CopyFailed);
      }
      if stop.Staged? {
        return;
      }
      if upper.Some? {
        aside := upper;
        upper := None;
      }
      if stop.MovedAside? {
        return;
      }
      if stop.SwapRefused? {
        if aside.Some? {
          upper := aside;
          aside := None;
        }
        return Failure(SwapFailed);
      }
      upper := staged;
      staged := None;
      if stop.Swapped? {
        return;
      }
      if stop.Discarding? {
        aside := stop.left;
        return;
      }
      aside := None;
      if stop.ClearingWork? {
        work := stop.left;
        return;
      }
      work := Some(map[]);
      r := Success("base");
    }
  }

  /** How a rollback to `target` ends: at its stop, done, or with the copy refused. */
  ghost predicate Concluded(
    s: State, target: Tree, id: Option<string>, stop: RollbackStop, t: State, r: Result<string, Fault>)
  {
    if PastCopy(stop) && !Copyable(Dir(target)) then
      r == Failure(CopyFailed) && exists part: Tree :: t == RollbackTo(s, target, Copying(Some(part)))
    else
      && t == RollbackTo(s, target, stop)
      && r == match stop
              case RollbackDone => Success(if id.Some? then id.value else "base")
              case SwapRefused => Failure(SwapFailed)
              case _ => Failure(Crashed)
  }

  predicate PastCopy(stop: RollbackStop) {
    !stop.NotBegun? && !stop.ClearingStage? && !stop.ClearingAside? && !stop.Copying?
  }

  // ---- ids resolve ------------------------------------------------------------------------------

  lemma {:induction false} BeforeDashOf(a: string, rest: string)
    requires '-' !in a
    ensures BeforeDash(a + "-" + rest) == a && BeforeDash(a) == a
  {
    if a == "" {
      assert a + "-" + rest == "-" + rest;
    } else {
      BeforeDashOf(a[1..], rest);
      assert (a + "-" + rest)[1..] == a[1..] + "-" + rest;
      assert [a[0]] + a[1..] == a;
    }
  }

  lemma IdTextParses(n: nat)
    requires n <= U32_MAX
    ensures '-' !in IdText(n) && !Hidden(IdText(n)) && ParseU32(IdText(n)) == Some(n)
  {
    var ds := IdText(n);
    assert '0' <= ds[0] <= '9';
  }

  /** A directory an id resolves to claims that id. */
  lemma MatchClaims(checkpoints: Entries, n: nat, name: string)
    requires n <= U32_MAX && Matches(checkpoints, IdText(n), name)
    ensures ClaimedId(checkpoints, name) == Some(n)
  {
    IdTextParses(n);
    var text: string := IdText(n);
    if name != text {
      var rest := name[|text| + 1..];
      assert name == text + "-" + rest;
      BeforeDashOf(text, rest);
    } else {
      BeforeDashOf(text, "");
    }
  }

  /** Short of the 32-bit limit, the new id is above every claimed one. */
  predicate AllocatedAbove(checkpoints: Entries, slug: string, id: nat) {
    exists highest: nat | highest < U32_MAX ::
      IsHighest(checkpoints, highest) && FirstFree(checkpoints, slug, highest + 1, id)
  }

  lemma AllocatedIsAbove(checkpoints: Entries, slug: string, id: nat)
    requires Allocated(checkpoints, slug, id)
    requires forall name <- checkpoints :: ClaimedId(checkpoints, name) != Some(U32_MAX)
    ensures AllocatedAbove(checkpoints, slug, id)
  {
    hide FirstFree, ClaimedId;
    var highest: nat :|
      highest <= U32_MAX && IsHighest(checkpoints, highest) && FirstFree(checkpoints, slug, Successor(highest), id);
    assert highest < U32_MAX && Successor(highest) == highest + 1;
  }

  lemma AllocatedFree(checkpoints: Entries, slug: string, id: nat)
    requires Allocated(checkpoints, slug, id)
    ensures id <= U32_MAX && DirName(id, slug) !in checkpoints
  {
  }

  lemma AboveAll(checkpoints: Entries, slug: string, id: nat)
    requires AllocatedAbove(checkpoints, slug, id)
    ensures id <= U32_MAX && DirName(id, slug) !in checkpoints
    ensures forall name <- checkpoints :: ClaimedId(checkpoints, name).Some? ==> ClaimedId(checkpoints, name).value < id
  {
  }

  /** The returned id resolves to the new directory and to nothing else. */
  lemma FreshIdResolvesOnly(checkpoints: Entries, slug: string, id: nat, entry: Entry, name: string)
    requires AllocatedAbove(checkpoints, slug, id) && entry.Held?
    ensures Matches(checkpoints[DirName(id, slug) := entry], IdText(id), name) <==> name == DirName(id, slug)
  {
    var dir := DirName(id, slug);
    var after := checkpoints[dir := entry];
    AboveAll(checkpoints, slug, id);
    if name != dir && Matches(after, IdText(id), name) {
      assert Matches(checkpoints, IdText(id), name);
      MatchClaims(checkpoints, id, name);
    }
  }

  /** Whatever the store holds, the new id resolves to the new directory alone exactly when the highest
      claimed id is below the 32-bit limit or no visible directory carries the new id's text already. */
  lemma FreshIdUniqueIff(checkpoints: Entries, slug: string, highest: nat, id: nat, entry: Entry)
    requires IsHighest(checkpoints, highest) && FirstFree(checkpoints, slug, Successor(highest), id) && entry.Held?
    ensures var after := checkpoints[DirName(id, slug) := entry];
            (forall name :: Matches(after, IdText(id), name) <==> name == DirName(id, slug)) <==>
            highest < U32_MAX || forall name <- checkpoints :: !Matches(checkpoints, IdText(id), name)
  {
    var dir, text: string := DirName(id, slug), IdText(id);
    var after := checkpoints[dir := entry];
    HighestFits(checkpoints, highest);
    hide IdText, DirName;
    if highest < U32_MAX {
      assert Successor(highest) == highest + 1;
      forall name
        ensures Matches(after, text, name) <==> name == dir
      {
        FreshIdResolvesOnly(checkpoints, slug, id, entry, name);
      }
    } else {
      NewDirMatches(checkpoints, slug, id, entry);
      OldDirsMatch(checkpoints, dir, entry, text);
    }
  }

  lemma OldDirsMatch(checkpoints: Entries, dir: string, entry: Entry, text: string)
    requires dir !in checkpoints
    ensures forall name <- checkpoints ::
              name != dir && (Matches(checkpoints[dir := entry], text, name) <==> Matches(checkpoints, text, name))
  {
  }

  lemma NewDirMatches(checkpoints: Entries, slug: string, id: nat, entry: Entry)
    requires id <= U32_MAX && entry.Held?
    ensures Matches(checkpoints[DirName(id, slug) := entry], IdText(id), DirName(id, slug))
  {
    var text: string := IdText(id);
    IdTextParses(id);
    assert DirName(id, slug)[0] == text[0];
  }

  /** At the limit the number wraps, and the new id resolves to an older checkpoint as well. */
  lemma WrappedIdAmbiguous(entry: Entry, top: nat, next: nat, a: string, b: string)
    requires entry.Held? && a != "" && b != "" && a != b && top == U32_MAX && next == Successor(top)
    ensures var checkpoints: Entries := map[IdText(top) := entry, DirName(next, a) := entry];
      && Allocated(checkpoints, b, next)
      && Matches(checkpoints[DirName(next, b) := entry], IdText(next), DirName(next, a))
      && Matches(checkpoints[DirName(next, b) := entry], IdText(next), DirName(next, b))
  {
    var checkpoints: Entries := map[IdText(top) := entry, DirName(next, a) := entry];
    WrappedAllocates(checkpoints, top, next, a, b);
  }

  lemma WrappedAllocates(checkpoints: Entries, top: nat, next: nat, a: string, b: string)
    requires a != "" && b != "" && a != b && top == U32_MAX && next == Successor(top)
    requires checkpoints.Keys == {IdText(top), DirName(next, a)}
    requires checkpoints[IdText(top)].Held? && checkpoints[DirName(next, a)].Held?
    ensures Allocated(checkpoints, b, next)
  {
    hide DirName, IdText, ClaimedId, Successor;
    SlugsApart(top, next, a, b);
    BareIdClaims(checkpoints, top);
    ClaimsFit(checkpoints);
    assert IsHighest(checkpoints, top);
    assert FirstFree(checkpoints, b, next, next);
  }

  lemma BareIdClaims(checkpoints: Entries, n: nat)
    requires n <= U32_MAX && IdText(n) in checkpoints && checkpoints[IdText(n)].Held?
    ensures ClaimedId(checkpoints, IdText(n)) == Some(n)
  {
    IdTextParses(n);
    BeforeDashOf(IdText(n), "");
  }

  lemma ClaimsFit(checkpoints: Entries)
    ensures forall name <- checkpoints ::
              ClaimedId(checkpoints, name).Some? ==> ClaimedId(checkpoints, name).value <= U32_MAX
  {
  }

  lemma SlugsApart(top: nat, next: nat, a: string, b: string)
    requires a != "" && b != "" && a != b && top <= U32_MAX
    ensures DirName(next, a) != DirName(next, b) && DirName(next, b) != IdText(top)
  {
    var text: string := IdText(next);
    IdTextParses(top);
    assert DirName(next, b)[|text|] == '-';
    assert DirName(next, a)[|text| + 1..] == a && DirName(next, b)[|text| + 1..] == b;
  }

  // ---- nothing is lost at a stop ----------------------------------------------------------------

  predicate InLayer(s: State, t: Tree) {
    exists name <- s.checkpoints :: s.checkpoints[name].Held? && s.checkpoints[name].layer == Some(t)
  }

  predicate Kept(s: State, t: Tree) {
    s.upper == Some(t) || s.aside == Some(t) || InLayer(s, t)
  }

  /** Wherever a create stops, no tree that was kept is lost, the workspace least of all, and older
      entries are as they were. */
  lemma CreateKeepsTrees(s: State, dir: string, meta: Meta, stop: CreateStop, tree: Tree)
    requires Kept(s, tree) && dir !in s.checkpoints
    ensures Kept(CreateTo(s, dir, meta, stop), tree)
    ensures forall name <- s.checkpoints :: name in CreateTo(s, dir, meta, stop).checkpoints
              && CreateTo(s, dir, meta, stop).checkpoints[name] == s.checkpoints[name]
  {
    var t := CreateTo(s, dir, meta, stop);
    if s.upper == Some(tree) && t.upper != s.upper {
      assert dir in t.checkpoints && t.checkpoints[dir].layer == s.upper;
    } else if InLayer(s, tree) {
      var name :| name in s.checkpoints && s.checkpoints[name].Held? && s.checkpoints[name].layer == Some(tree);
      assert name in t.checkpoints && t.checkpoints[name] == s.checkpoints[name];
    }
  }

  // ---- operations and what a stopped rollback leaves pending ------------------------------------

  /** `Edit` is the user at work in the mounted workspace. */
  datatype Operation =
    | CreateOp(id: nat, slug: string, description: string, createStop: CreateStop)
    | RollbackOp(target: Tree, rollbackStop: RollbackStop)
    | Edit(tree: Tree)
    | Remount

  ghost predicate CanFollow(s: State, op: Operation) {
    && (op.CreateOp? ==> Allocated(s.checkpoints, op.slug, op.id))
    && (op.Edit? ==> s.upper.Some?)
  }

  function CreateDir(op: Operation): string
    requires op.CreateOp?
  {
    DirName(op.id, op.slug)
  }

  /** Mounting creates the upper and work directories that are missing. */
  function After(s: State, op: Operation): State {
    match op
    case CreateOp(id, _, description, stop) => CreateTo(s, CreateDir(op), Meta(IdText(id), description), stop)
    case RollbackOp(target, stop) => RollbackTo(s, target, stop)
    case Edit(tree) => s.(upper := Some(tree))
    case Remount =>
      s.(upper := if s.upper.None? then Some(map[]) else s.upper, work := if s.work.None? then Some(map[]) else s.work)
  }

  /** The rollback got as far as its second rename: the chosen tree is in place. */
  predicate Swaps(op: Operation) {
    && op.RollbackOp?
    && (op.rollbackStop.Swapped? || op.rollbackStop.Discarding? || op.rollbackStop.ClearingWork?
        || op.rollbackStop.RollbackDone?)
  }

  /** The workspace a stopped rollback has moved aside, until one swaps or the tree is back in the
      upper. `pending` is its value before the operation. */
  function Pending(s: State, pending: Option<Tree>, op: Operation): Option<Tree> {
    var aside := if op.RollbackOp? && op.rollbackStop.MovedAside? && s.upper.Some? then s.upper else pending;
    if Swaps(op) || After(s, op).upper == aside then None else aside
  }

  /** A pending workspace is out of the upper and still kept. */
  predicate Tracked(s: State, pending: Option<Tree>) {
    pending.Some? ==> s.upper != pending && Kept(s, pending.value)
  }

  /** No step of the system loses the pending workspace or the upper, unless the chosen tree took its
      place; what the user edits is the user's. */
  predicate StepSafe(s: State, pending: Option<Tree>, op: Operation) {
    Swaps(op)
    || (&& (pending.Some? ==> Kept(After(s, op), pending.value))
        && (s.upper.Some? && !op.Edit? ==> Kept(After(s, op), s.upper.value)))
  }

  /** A rollback that clears the leftovers of the last one, and with them a pending workspace that is
      in no layer, and then stops short of its swap. */
  predicate Loses(s: State, pending: Option<Tree>, op: Operation) {
    && pending.Some? && !InLayer(s, pending.value)
    && op.RollbackOp? && !Swaps(op) && !op.rollbackStop.NotBegun? && !op.rollbackStop.ClearingStage?
    && (op.rollbackStop.ClearingAside? ==> op.rollbackStop.left != pending)
  }

  lemma StepSafeIff(s: State, pending: Option<Tree>, op: Operation)
    requires Tracked(s, pending) && CanFollow(s, op)
    ensures StepSafe(s, pending, op) <==> !Loses(s, pending, op)
    ensures StepSafe(s, pending, op) ==> Tracked(After(s, op), Pending(s, pending, op))
  {
    hide Allocated, DirName, IdText;
    match op
    case CreateOp(_, _, _, _) => CreateStepSafe(s, pending, op);
    case RollbackOp(_, _) => assert After(s, op).checkpoints == s.checkpoints;
    case Edit(_) => assert After(s, op).checkpoints == s.checkpoints;
    case Remount => assert After(s, op).checkpoints == s.checkpoints;
  }

  lemma CreateStepSafe(s: State, pending: Option<Tree>, op: Operation)
    requires Tracked(s, pending) && CanFollow(s, op) && op.CreateOp?
    ensures StepSafe(s, pending, op) && Tracked(After(s, op), Pending(s, pending, op))
  {
    AllocatedFree(s.checkpoints, op.slug, op.id);
    assert s.upper.Some? ==> Kept(s, s.upper.value);
    hide Allocated, DirName, IdText, Kept;
    var meta := Meta(IdText(op.id), op.description);
    if pending.Some? {
      CreateKeepsTrees(s, CreateDir(op), meta, op.createStop, pending.value);
    }
    if s.upper.Some? {
      CreateKeepsTrees(s, CreateDir(op), meta, op.createStop, s.upper.value);
    }
  }

  ghost predicate RunSafe(s: State, pending: Option<Tree>, ops: seq<Operation>)
    decreases |ops|
  {
    ops == [] || (StepSafe(s, pending, ops[0]) && RunSafe(After(s, ops[0]), Pending(s, pending, ops[0]), ops[1..]))
  }

  ghost predicate NeverLoses(s: State, pending: Option<Tree>, ops: seq<Operation>)
    decreases |ops|
  {
    ops == [] || (!Loses(s, pending, ops[0]) && NeverLoses(After(s, ops[0]), Pending(s, pending, ops[0]), ops[1..]))
  }

  ghost predicate Runs(s: State, ops: seq<Operation>, t: State)
    decreases |ops|
  {
    if ops == [] then s == t else CanFollow(s, ops[0]) && Runs(After(s, ops[0]), ops[1..], t)
  }

  /** Over any run of creates, rollbacks, edits and remounts, each stopping anywhere, every workspace
      survives in the upper, aside or a layer until a chosen tree takes its place, exactly when no
      rollback clears a pending workspace that is in no layer and stops before its swap. */
  lemma {:induction false} RunSafeIff(s: State, pending: Option<Tree>, ops: seq<Operation>, t: State)
    requires Tracked(s, pending) && Runs(s, ops, t)
    ensures RunSafe(s, pending, ops) <==> NeverLoses(s, pending, ops)
    decreases |ops|
  {
    if ops != [] {
      StepSafeIff(s, pending, ops[0]);
      hide CanFollow, StepSafe, Loses, Tracked, Pending, After;
      if StepSafe(s, pending, ops[0]) {
        RunSafeIff(After(s, ops[0]), Pending(s, pending, ops[0]), ops[1..], t);
      }
    }
  }

  /** One rollback is safe wherever it stops exactly when nothing is pending or what is pending is in
      a layer. */
  lemma RollbackSafeIff(s: State, pending: Option<Tree>, target: Tree)
    requires Tracked(s, pending)
    ensures (forall stop :: StepSafe(s, pending, RollbackOp(target, stop))) <==>
            pending.None? || InLayer(s, pending.value)
  {
    forall stop
      ensures StepSafe(s, pending, RollbackOp(target, stop)) <==> !Loses(s, pending, RollbackOp(target, stop))
    {
      StepSafeIff(s, pending, RollbackOp(target, stop));
    }
    if pending.Some? && !InLayer(s, pending.value) {
      assert Loses(s, pending, RollbackOp(target, Staged));
    }
  }

  /** Retrying a rollback that stopped between its two renames can lose the workspace. */
  lemma RetryCanLoseWorkspace(s: State, target: Tree, again: Tree)
    requires s.upper.Some? && !InLayer(s, s.upper.value)
    ensures var crashed := RollbackTo(s, target, MovedAside);
      && Kept(crashed, s.upper.value)
      && !Kept(RollbackTo(crashed, again, Copying(None)), s.upper.value)
      && RollbackTo(crashed, again, Copying(None)).upper.None?
  {
    assert RollbackTo(RollbackTo(s, target, MovedAside), again, Copying(None)).checkpoints == s.checkpoints;
  }

  /** So can a rollback after a create or a remount has put an empty upper in its place: the upper is
      there, and the workspace is not in it. */
  lemma FreshUpperHidesPending(s: State, target: Tree, between: Operation, again: Tree)
    requires s.upper.Some? && s.upper != Some(map[]) && !InLayer(s, s.upper.value)
    requires between.Remount? || (between.CreateOp? && between.createStop.CreateDone?)
    requires CanFollow(RollbackTo(s, target, MovedAside), between)
    ensures var crashed := RollbackTo(s, target, MovedAside);
            var renewed := After(crashed, between);
            && Pending(s, None, RollbackOp(target, MovedAside)) == s.upper
            && Pending(crashed, s.upper, between) == s.upper
            && renewed.upper == Some(map[]) && Kept(renewed, s.upper.value)
            && !Kept(RollbackTo(renewed, again, Copying(None)), s.upper.value)
  {
    var crashed := RollbackTo(s, target, MovedAside);
    var renewed := After(crashed, between);
    var lost := RollbackTo(renewed, again, Copying(None));
    hide DirName, IdText, Allocated;
    assert lost.checkpoints == renewed.checkpoints;
    if between.CreateOp? {
      var entry := Held(Some(Meta(IdText(between.id), between.description)), Some(map[]));
      assert renewed.checkpoints == s.checkpoints[CreateDir(between) := entry];
    } else {
      assert renewed.checkpoints == s.checkpoints;
    }
  }

  // ---- listing ----------------------------------------------------------------------------------

  predicate Listed(checkpoints: Entries, name: string) {
    && name in checkpoints && !Hidden(name)
    && checkpoints[name].Held? && checkpoints[name].layer.Some? && checkpoints[name].meta.Some?
  }

  function ListedMetas(dirs: seq<string>, checkpoints: Entries): seq<Meta> {
    if dirs == [] then []
    else
      var name := dirs[|dirs| - 1];
      ListedMetas(dirs[..|dirs| - 1], checkpoints)
      + if Listed(checkpoints, name) then [checkpoints[name].meta.value] else []
  }

  method ListCheckpoints(dirs: seq<string>, checkpoints: Entries) returns (metas: seq<Meta>)
    ensures metas == ListedMetas(dirs, checkpoints)
  {
    metas := [];
    var i := 0;
    while i < |dirs|
      invariant 0 <= i <= |dirs| && metas == ListedMetas(dirs[..i], checkpoints)
    {
      var name := dirs[i];
      assert dirs[..i + 1][..i] == dirs[..i];
      if name in checkpoints && !Hidden(name) && checkpoints[name].Held? && checkpoints[name].layer.Some? {
        if checkpoints[name].meta.Some? {
          metas := metas + [checkpoints[name].meta.value];
        }
      }
      i := i + 1;
    }
    assert dirs[..i] == dirs;
  }

  lemma {:induction false} ListedExactly(dirs: seq<string>, checkpoints: Entries, meta: Meta)
    ensures meta in ListedMetas(dirs, checkpoints) <==>
            exists i :: 0 <= i < |dirs| && Listed(checkpoints, dirs[i]) && checkpoints[dirs[i]].meta == Some(meta)
  {
    if dirs != [] {
      var init := dirs[..|dirs| - 1];
      ListedExactly(init, checkpoints, meta);
      assert dirs == init + [dirs[|dirs| - 1]];
    }
  }

  predicate LayerInPlace(stop: CreateStop) {
    stop.LayerMoved? || stop.UpperMade? || stop.InWork? || stop.CreateDone?
  }

  /** A create that stops is listed only once its layer holds the whole upper, and changes no other row. */
  lemma ListedOnlyWhenWhole(s: State, id: nat, slug: string, description: string, stop: CreateStop)
    requires Allocated(s.checkpoints, slug, id)
    ensures var dir := DirName(id, slug);
      var t := CreateTo(s, dir, Meta(IdText(id), description), stop);
      && (Listed(t.checkpoints, dir) <==> LayerInPlace(stop))
      && (Listed(t.checkpoints, dir) ==>
            t.checkpoints[dir] == Held(Some(Meta(IdText(id), description)), Some(Layer(s))))
      && (forall name :: name != dir ==> (Listed(t.checkpoints, name) <==> Listed(s.checkpoints, name)))
  {
    var dir := DirName(id, slug);
    assert dir !in s.checkpoints && !Hidden(dir) by {
      AllocatedFree(s.checkpoints, slug, id);
      IdTextParses(id);
      assert dir[0] == IdText(id)[0];
    }
    hide DirName, IdText, Allocated;
    var meta := Meta(IdText(id), description);
    var t := CreateTo(s, dir, meta, stop);
    assert stop.AtStart? || t.checkpoints == s.checkpoints[dir := EntryAt(s, meta, stop)];
  }

  // ---- what was saved can be restored -----------------------------------------------------------

  /** The id resolves to this directory alone, and it holds this layer. */
  predicate Restorable(checkpoints: Entries, id: nat, dir: string, layer: Tree) {
    && id <= U32_MAX && dir in checkpoints && checkpoints[dir].Held? && checkpoints[dir].layer == Some(layer)
    && Matches(checkpoints, IdText(id), dir)
    && forall name <- checkpoints :: Matches(checkpoints, IdText(id), name) ==> name == dir
  }

  lemma NewEntryRestorable(checkpoints: Entries, slug: string, id: nat, meta: Meta, layer: Tree)
    requires Allocated(checkpoints, slug, id) && forall name <- checkpoints :: !Matches(checkpoints, IdText(id), name)
    ensures Restorable(checkpoints[DirName(id, slug) := Held(Some(meta), Some(layer))], id, DirName(id, slug), layer)
  {
    var dir, entry := DirName(id, slug), Held(Some(meta), Some(layer));
    AllocatedFree(checkpoints, slug, id);
    NewDirMatches(checkpoints, slug, id, entry);
    OldDirsMatch(checkpoints, dir, entry, IdText(id));
  }

  /** A create that makes a directory under this id. */
  predicate Reuses(op: Operation, id: nat) {
    op.CreateOp? && !op.createStop.AtStart? && op.id == id
  }

  /** Two directories carry the id, and which one it restores is up to the listing. */
  predicate Ambiguous(checkpoints: Entries, id: nat) {
    exists a <- checkpoints, b <- checkpoints ::
      a != b && Matches(checkpoints, IdText(id), a) && Matches(checkpoints, IdText(id), b)
  }

  /** A new directory carries the old id exactly when it was made under it. */
  lemma NewDirCarries(checkpoints: Entries, slug: string, other: nat, entry: Entry, id: nat)
    requires other <= U32_MAX && id <= U32_MAX && entry.Held?
    ensures Matches(checkpoints[DirName(other, slug) := entry], IdText(id), DirName(other, slug)) <==> id == other
  {
    var made := DirName(other, slug);
    var after := checkpoints[made := entry];
    NewDirMatches(checkpoints, slug, other, entry);
    MatchClaims(after, other, made);
    if Matches(after, IdText(id), made) {
      MatchClaims(after, id, made);
    }
  }

  lemma CreateStaysRestorable(
    checkpoints: Entries, slug: string, other: nat, entry: Entry, id: nat, dir: string, layer: Tree)
    requires Allocated(checkpoints, slug, other) && entry.Held? && Restorable(checkpoints, id, dir, layer)
    ensures var after := checkpoints[DirName(other, slug) := entry];
            if other == id then Ambiguous(after, id) else Restorable(after, id, dir, layer)
  {
    var made, text: string := DirName(other, slug), IdText(id);
    var after := checkpoints[made := entry];
    AllocatedFree(checkpoints, slug, other);
    NewDirCarries(checkpoints, slug, other, entry, id);
    OldDirsMatch(checkpoints, made, entry, text);
    hide DirName, IdText, Matches, Allocated;
    assert made != dir && dir in after && made in after;
  }

  lemma AmbiguousGrows(checkpoints: Entries, made: string, entry: Entry, id: nat)
    requires Ambiguous(checkpoints, id) && made !in checkpoints
    ensures Ambiguous(checkpoints[made := entry], id)
  {
    hide IdText;
    var a, b :| a in checkpoints && b in checkpoints && a != b
                && Matches(checkpoints, IdText(id), a) && Matches(checkpoints, IdText(id), b);
    OldDirsMatch(checkpoints, made, entry, IdText(id));
    hide Matches;
    assert a in checkpoints[made := entry] && b in checkpoints[made := entry];
  }

  lemma AmbiguousStays(s: State, op: Operation, id: nat)
    requires Ambiguous(s.checkpoints, id) && CanFollow(s, op)
    ensures Ambiguous(After(s, op).checkpoints, id)
  {
    hide Ambiguous, DirName, IdText, Allocated;
    if op.CreateOp? && !op.createStop.AtStart? {
      AllocatedFree(s.checkpoints, op.slug, op.id);
      var entry := EntryAt(s, Meta(IdText(op.id), op.description), op.createStop);
      AmbiguousGrows(s.checkpoints, CreateDir(op), entry, id);
    } else {
      assert After(s, op).checkpoints == s.checkpoints;
    }
  }

  lemma StaysRestorable(s: State, op: Operation, id: nat, dir: string, layer: Tree)
    requires Restorable(s.checkpoints, id, dir, layer) && CanFollow(s, op)
    ensures if Reuses(op, id) then Ambiguous(After(s, op).checkpoints, id)
            else Restorable(After(s, op).checkpoints, id, dir, layer)
  {
    hide Restorable, Ambiguous, Allocated, DirName, IdText;
    if op.CreateOp? && !op.createStop.AtStart? {
      var entry := EntryAt(s, Meta(IdText(op.id), op.description), op.createStop);
      CreateStaysRestorable(s.checkpoints, op.slug, op.id, entry, id, dir, layer);
    } else {
      assert After(s, op).checkpoints == s.checkpoints;
    }
  }

  lemma {:induction false} AmbiguousForever(s: State, ops: seq<Operation>, t: State, id: nat)
    requires Ambiguous(s.checkpoints, id) && Runs(s, ops, t)
    ensures Ambiguous(t.checkpoints, id)
    decreases |ops|
  {
    if ops != [] {
      AmbiguousStays(s, ops[0], id);
      hide Ambiguous, CanFollow;
      AmbiguousForever(After(s, ops[0]), ops[1..], t, id);
    }
  }

  predicate NoneReuses(ops: seq<Operation>, id: nat) {
    forall i :: 0 <= i < |ops| ==> !Reuses(ops[i], id)
  }

  /**
   Once the layer is in place, later operations, finished or stopped anywhere, leave what the id
   restores alone exactly when none of them makes a directory under the same id.
   */
  lemma {:induction false} RestorableForeverIff(
    s: State, ops: seq<Operation>, t: State, id: nat, dir: string, layer: Tree)
    requires Restorable(s.checkpoints, id, dir, layer) && Runs(s, ops, t)
    ensures Restorable(t.checkpoints, id, dir, layer) <==> NoneReuses(ops, id)
    ensures !NoneReuses(ops, id) ==> Ambiguous(t.checkpoints, id)
    decreases |ops|
  {
    hide DirName, IdText, Allocated, CanFollow, Matches, Reuses;
    if ops != [] {
      StaysRestorable(s, ops[0], id, dir, layer);
      if Reuses(ops[0], id) {
        AmbiguousForever(After(s, ops[0]), ops[1..], t, id);
        assert !NoneReuses(ops, id);
      } else {
        RestorableForeverIff(After(s, ops[0]), ops[1..], t, id, dir, layer);
        NoneReusesTail(ops, id);
      }
    }
  }

  lemma NoneReusesTail(ops: seq<Operation>, id: nat)
    requires ops != [] && !Reuses(ops[0], id)
    ensures NoneReuses(ops, id) <==> NoneReuses(ops[1..], id)
  {
    hide Reuses;
    forall i | 0 <= i < |ops| - 1
      ensures ops[1..][i] == ops[i + 1]
    {
    }
    if NoneReuses(ops[1..], id) {
      forall i | 0 <= i < |ops|
        ensures !Reuses(ops[i], id)
      {
        assert i == 0 || ops[i] == ops[1..][i - 1];
      }
    }
  }

  /** Below the 32-bit limit a create never reuses an id that restores something. */
  lemma AboveNeverReuses(s: State, op: Operation, id: nat, dir: string, layer: Tree)
    requires op.CreateOp? && AllocatedAbove(s.checkpoints, op.slug, op.id)
    requires Restorable(s.checkpoints, id, dir, layer)
    ensures !Reuses(op, id)
  {
    AboveAll(s.checkpoints, op.slug, op.id);
    MatchClaims(s.checkpoints, id, dir);
  }

  /**
   Create, then anything that does not reuse the id, then roll back to it: the upper is the saved tree
   again, links and all, unless the tree holds a device, which the copier refuses and leaves the upper
   as it was.
   */
  lemma CreateThenRollback(
    s: State, slug: string, id: nat, description: string, ops: seq<Operation>, t: State, target: Tree, u: State,
    r: Result<string, Fault>)
    requires Allocated(s.checkpoints, slug, id)
    requires forall name <- s.checkpoints :: !Matches(s.checkpoints, IdText(id), name)
    requires Runs(CreateTo(s, DirName(id, slug), Meta(IdText(id), description), CreateDone), ops, t)
    requires NoneReuses(ops, id)
    requires exists n :: Matches(t.checkpoints, IdText(id), n) && t.checkpoints[n].layer == Some(target)
    requires Concluded(t, target, Some(IdText(id)), RollbackDone, u, r)
    ensures target == Layer(s)
    ensures Copyable(Dir(Layer(s))) ==> r == Success(IdText(id)) && u.upper == Some(Layer(s))
    ensures !Copyable(Dir(Layer(s))) ==> r == Failure(CopyFailed) && u.upper == t.upper
  {
    var meta := Meta(IdText(id), description);
    var created := CreateTo(s, DirName(id, slug), meta, CreateDone);
    var n :| Matches(t.checkpoints, IdText(id), n) && t.checkpoints[n].layer == Some(target);
    NewEntryRestorable(s.checkpoints, slug, id, meta, Layer(s));
    RestorableForeverIff(created, ops, t, id, DirName(id, slug), Layer(s));
    assert n == DirName(id, slug);
    hide Matches, Restorable, Runs, DirName, IdText, Allocated;
  }
}
