/**
 The names of checkpoints: what a directory name says its id is, and which directories answer to an id.
 */
module CheckpointRules {
  import opened Wrappers
  import opened Decimals
  import opened Checkpoint

  /** Digits only, with nothing or one plus sign in front, of a value below 2^32. */
  ghost predicate Spells(text: string, n: nat) {
    n < 4_294_967_296
    && exists ds: Digits :: ds != [] && Value(ds) == n && (text == ds || text == "+" + ds)
  }

  lemma NumberRule(text: string, n: nat)
    ensures ParseU32(text) == Some(n) <==> Spells(text, n)
  {
    var t := if "+" <= text then text[1..] else text;
    if ParseU32(text) == Some(n) {
      var ds: Digits := t;
      assert text == ds || text == "+" + ds;
    }
    if Spells(text, n) {
      var ds: Digits :| ds != [] && Value(ds) == n && (text == ds || text == "+" + ds);
      assert ds[0] != '+';
      assert t == ds;
    }
  }

  /** A name claims the number its part before the first dash spells. */
  lemma {:induction false} BeforeDashRule(head: string, tail: string)
    requires '-' !in head
    ensures BeforeDash(head) == head && BeforeDash(head + "-" + tail) == head
  {
    if head == "" {
      assert head + "-" + tail == "-" + tail;
    } else {
      BeforeDashRule(head[1..], tail);
      assert (head + "-" + tail)[1..] == head[1..] + "-" + tail;
      assert head == [head[0]] + head[1..];
    }
  }

  /** Only a directory whose name does not begin with a full stop claims an id. */
  lemma ClaimRule(checkpoints: Entries, name: string, n: nat)
    ensures ClaimedId(checkpoints, name) == Some(n) <==>
            && name in checkpoints && checkpoints[name] != Plain && !("." <= name)
            && Spells(BeforeDash(name), n)
  {
    NumberRule(BeforeDash(name), n);
    assert "." <= name <==> name != "" && name[0] == '.';
  }

  /** A directory answers to an id when it is named by it, alone or with a dash and a text behind it. */
  lemma MatchRule(checkpoints: Entries, id: string, name: string)
    ensures Matches(checkpoints, id, name) <==>
            && name in checkpoints && checkpoints[name] != Plain && !("." <= name)
            && (name == id || exists slug: string :: name == id + "-" + slug)
  {
    assert "." <= name <==> name != "" && name[0] == '.';
    if id + "-" <= name {
      var slug := name[|id| + 1..];
      assert name == id + "-" + slug;
    }
  }

  /** A new directory is named by its number in at least three digits, no more zeros in front than that needs,
      and a dash and the slug if there is one. */
  lemma NameRule(n: nat, slug: string)
    ensures DirName(n, slug) == if slug == "" then IdText(n) else IdText(n) + "-" + slug
    ensures Value(IdText(n)) == n && |IdText(n)| >= 3 && (|IdText(n)| > 3 ==> IdText(n)[0] != '0')
  {
  }

  /** Numbers up to 999999 are tried after a clash, and the number after the highest 32-bit one is zero. */
  lemma LimitRule(checkpoints: Entries, slug: string, first: nat)
    ensures NoneFree(checkpoints, slug, first) <==>
            DirName(first, slug) in checkpoints && forall k :: first < k < 1_000_000 ==> DirName(k, slug) in checkpoints
    ensures forall id :: FirstFree(checkpoints, slug, first, id) ==> id == first || id < 1_000_000
    ensures forall highest: nat ::
              highest < 4_294_967_296 ==>
                Successor(highest) == if highest == 4_294_967_295 then 0 else highest + 1
  {
    hide DirName;
  }
}
