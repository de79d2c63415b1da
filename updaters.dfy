/**
 * The registry's list of updaters and the pure meaning of its two list
 * operations: keeping the list sorted when an updater is added, and choosing
 * and running the updaters a tag recorded at some version still needs.
 */
module Updaters {
  import opened Versions
  import opened Tags

  /**
   * A registered updater: its version and the combined effect of its steps
   * on a mutable tag. `update` returns the rewritten tag and whether any
   * step reported a change, as `CompoundTagUpdater.update(Map)` does.
   */
  datatype Updater = Updater(version: Version, update: Tag -> (Tag, bool))

  /** Ascending by version, the order updaters compare in. */
  ghost predicate Sorted(us: seq<Updater>)
  {
    forall i, j :: 0 <= i < j < |us| ==> us[i].version <= us[j].version
  }

  /** Where a stable sort of `us + [u]` puts `u` when `us` is sorted: right
      after the last updater whose version does not exceed its own. */
  function InsertionPoint(us: seq<Updater>, u: Updater): (k: nat)
    ensures k <= |us|
    ensures forall i :: k <= i < |us| ==> u.version < us[i].version
    ensures Sorted(us) ==> forall i :: 0 <= i < k ==> us[i].version <= u.version
  {
    if us == [] || us[|us| - 1].version <= u.version then |us|
    else InsertionPoint(us[..|us| - 1], u)
  }

  /** The list `add(u)` followed by `sort(null)` leaves when `us` is sorted:
      the sort is stable, so `u` follows every updater of equal version. */
  function Insert(us: seq<Updater>, u: Updater): (r: seq<Updater>)
    ensures |r| == |us| + 1
    ensures exists k :: 0 <= k < |r| && r[k] == u && r[..k] + r[k + 1..] == us
    ensures multiset(r) == multiset(us) + multiset{u}
    ensures Sorted(us) ==> Sorted(r)
    ensures forall i :: 0 <= i < |us| && us[i].version <= u.version ==> r[i] == us[i]
    ensures Sorted(us) ==> forall i :: 0 <= i < |us| && u.version < us[i].version ==> r[i + 1] == us[i]
    ensures Sorted(us) && (us == [] || us[|us| - 1].version <= u.version) ==> r == us + [u]
  {
    var k := InsertionPoint(us, u);
    InsertKeepsOthers(us, u, k);
    InsertKeepsOrder(us, u, k);
    InsertKeepsLower(us, u, k);
    InsertShiftsHigher(us, u, k);
    us[..k] + [u] + us[k..]
  }

  lemma InsertKeepsOthers(us: seq<Updater>, u: Updater, k: nat)
    requires k <= |us|
    ensures var r := us[..k] + [u] + us[k..];
            r[k] == u && r[..k] + r[k + 1..] == us &&
            multiset(r) == multiset(us) + multiset{u}
  {
    var r := us[..k] + [u] + us[k..];
    assert r[..k] == us[..k] && r[k + 1..] == us[k..];
    assert us == us[..k] + us[k..];
  }

  /** Stability, first half: inserting before every updater above `u` leaves
      each updater not above `u` at its index. */
  lemma InsertKeepsLower(us: seq<Updater>, u: Updater, k: nat)
    requires k <= |us| && forall i :: k <= i < |us| ==> u.version < us[i].version
    ensures forall i :: 0 <= i < |us| && us[i].version <= u.version ==>
              (us[..k] + [u] + us[k..])[i] == us[i]
  {
    var r := us[..k] + [u] + us[k..];
    forall i | 0 <= i < |us| && us[i].version <= u.version
      ensures r[i] == us[i]
    {
      assert i < k;
    }
  }

  /** Stability, second half: when no updater before the insertion point is
      above `u`, each updater above `u` moves up by one index. */
  lemma InsertShiftsHigher(us: seq<Updater>, u: Updater, k: nat)
    requires k <= |us|
    ensures (forall i :: 0 <= i < k ==> us[i].version <= u.version) ==>
              forall i :: 0 <= i < |us| && u.version < us[i].version ==>
                (us[..k] + [u] + us[k..])[i + 1] == us[i]
  {
    var r := us[..k] + [u] + us[k..];
    if forall i :: 0 <= i < k ==> us[i].version <= u.version {
      forall i | 0 <= i < |us| && u.version < us[i].version
        ensures r[i + 1] == us[i]
      {
        assert k <= i;
      }
    }
  }

  lemma InsertKeepsOrder(us: seq<Updater>, u: Updater, k: nat)
    requires k == InsertionPoint(us, u)
    ensures Sorted(us) ==> Sorted(us[..k] + [u] + us[k..])
  {
    var r := us[..k] + [u] + us[k..];
    if Sorted(us) {
      forall i, j | 0 <= i < j < |r| ensures r[i].version <= r[j].version {
        if j < k || i > k {
        } else if i == k {
          assert r[j] == us[j - 1];
        } else if j == k {
          assert r[i] == us[i];
        } else {
          assert r[i] == us[i] && r[j] == us[j - 1];
        }
      }
    }
  }

  /** The sequence number `addUpdater` gives a new updater for `release`
      when `us` is registered: 0 after a reset, on an empty list or for a
      release other than the latest one's; otherwise the latest one's, plus
      one when bumping. The latest updater is the last of the list. */
  function NextSequence(us: seq<Updater>, release: Version, reset: bool, bump: bool): (s: int)
    ensures 0 <= s <= 0x100
  {
    if reset || us == [] || BaseVersion(us[|us| - 1].version) != release then 0
    else UpdaterVersion(us[|us| - 1].version) + if bump then 1 else 0
  }

  /** The updaters `updateStates0` runs, in list order, for a tag recorded
      at `version`: those whose version is not below it. */
  function Selected(us: seq<Updater>, version: Version): (r: seq<Updater>)
    ensures |r| <= |us|
    ensures forall i :: 0 <= i < |r| ==> version <= r[i].version
  {
    if us == [] then []
    else
      var init, last := us[..|us| - 1], us[|us| - 1];
      Selected(init, version) + if last.version < version then [] else [last]
  }

  /** An updater is selected exactly when it is registered and its version
      is not below the recorded one. */
  lemma {:induction false} SelectedMembers(us: seq<Updater>, version: Version, u: Updater)
    ensures u in Selected(us, version) <==> u in us && version <= u.version
  {
    if us != [] {
      var init, last := us[..|us| - 1], us[|us| - 1];
      assert us == init + [last];
      SelectedMembers(init, version, u);
    }
  }

  /** Runs `us` in list order on `tag`, or-ing together the change flags. */
  function ApplyAll(us: seq<Updater>, tag: Tag): (Tag, bool)
  {
    if us == [] then (tag, false)
    else
      var (t, changed) := ApplyAll(us[..|us| - 1], tag);
      var (t', changed') := us[|us| - 1].update(t);
      (t', changed || changed')
  }

  /** Whether `updateStates0` returns a map rather than null: some updater
      was selected and some selected updater reported a change. */
  predicate Changes(us: seq<Updater>, tag: Tag, version: Version)
  {
    var selected := Selected(us, version);
    selected != [] && ApplyAll(selected, tag).1
  }

  /** The working copy after the selected updaters have run. */
  function Applied(us: seq<Updater>, tag: Tag, version: Version): Tag
  {
    ApplyAll(Selected(us, version), tag).0
  }

  /** Extending a prefix of the list by a skipped updater leaves its
      selection as it was. */
  lemma SelectedSkip(us: seq<Updater>, i: nat, version: Version)
    requires i < |us| && us[i].version < version
    ensures Selected(us[..i + 1], version) == Selected(us[..i], version)
  {
    assert us[..i + 1][..i] == us[..i];
  }

  /** Extending a prefix of the list by a selected updater appends it to
      the selection. */
  lemma SelectedTake(us: seq<Updater>, i: nat, version: Version)
    requires i < |us| && version <= us[i].version
    ensures Selected(us[..i + 1], version) == Selected(us[..i], version) + [us[i]]
  {
    assert us[..i + 1][..i] == us[..i];
  }

  /** Running one more updater after a list. */
  lemma ApplyAllStep(s: seq<Updater>, u: Updater, tag: Tag)
    ensures ApplyAll(s + [u], tag) ==
              (u.update(ApplyAll(s, tag).0).0, ApplyAll(s, tag).1 || u.update(ApplyAll(s, tag).0).1)
  {
    assert (s + [u])[..|s|] == s;
  }

  /** Selection distributes over concatenation. */
  lemma {:induction false} SelectedAppend(a: seq<Updater>, b: seq<Updater>, version: Version)
    ensures Selected(a + b, version) == Selected(a, version) + Selected(b, version)
    decreases |b|
  {
    if b == [] {
      assert a + b == a;
    } else {
      var b0 := b[..|b| - 1];
      assert (a + b)[..|a + b| - 1] == a + b0;
      SelectedAppend(a, b0, version);
    }
  }

  /** Updaters all below the recorded version are all skipped. */
  lemma {:induction false} SelectedNone(us: seq<Updater>, version: Version)
    requires forall i :: 0 <= i < |us| ==> us[i].version < version
    ensures Selected(us, version) == []
  {
    if us != [] {
      SelectedNone(us[..|us| - 1], version);
    }
  }

  /** Updaters none of which is below the recorded version all run. */
  lemma {:induction false} SelectedAll(us: seq<Updater>, version: Version)
    requires forall i :: 0 <= i < |us| ==> version <= us[i].version
    ensures Selected(us, version) == us
  {
    if us != [] {
      SelectedAll(us[..|us| - 1], version);
      assert us == us[..|us| - 1] + [us[|us| - 1]];
    }
  }

  /** The index of the first updater a sorted list selects. */
  function FirstSelected(us: seq<Updater>, version: Version): (k: nat)
    ensures k <= |us|
    ensures forall i :: k <= i < |us| ==> version <= us[i].version
    ensures Sorted(us) ==> forall i :: 0 <= i < k ==> us[i].version < version
  {
    if us == [] || us[|us| - 1].version < version then |us|
    else FirstSelected(us[..|us| - 1], version)
  }

  /** On a sorted list the skipped updaters form a prefix, so the selected
      ones are exactly the remaining suffix. */
  lemma SelectedOfSortedIsSuffix(us: seq<Updater>, version: Version)
    requires Sorted(us)
    ensures var k := |us| - |Selected(us, version)|;
            Selected(us, version) == us[k..] &&
            forall i :: 0 <= i < k ==> us[i].version < version
  {
    var k := FirstSelected(us, version);
    SelectedSplit(us, version, k);
  }

  /** A list whose first `k` updaters are skipped and whose others all run
      selects its suffix from `k`. */
  lemma SelectedSplit(us: seq<Updater>, version: Version, k: nat)
    requires k <= |us|
    requires forall i :: 0 <= i < k ==> us[i].version < version
    requires forall i :: k <= i < |us| ==> version <= us[i].version
    ensures Selected(us, version) == us[k..]
  {
    var skipped, run := us[..k], us[k..];
    assert skipped + run == us;
    assert forall i :: 0 <= i < |skipped| ==> skipped[i].version < version by {
      forall i | 0 <= i < |skipped| ensures skipped[i].version < version {
        assert skipped[i] == us[i];
      }
    }
    assert forall i :: 0 <= i < |run| ==> version <= run[i].version by {
      forall i | 0 <= i < |run| ensures version <= run[i].version {
        assert run[i] == us[k + i];
      }
    }
    SelectedAppend(skipped, run, version);
    SelectedNone(skipped, version);
    SelectedAll(run, version);
    assert Selected(us, version) == [] + run;
  }

  /** On a sorted registry, a tag selects no updater exactly when it is
      recorded above every registered version. */
  lemma NothingSelectedAboveLatest(us: seq<Updater>, version: Version)
    requires Sorted(us)
    ensures Selected(us, version) == [] <==> us == [] || us[|us| - 1].version < version
  {
    if us == [] || us[|us| - 1].version < version {
      SelectedOfSortedIsSuffix(us, version);
    } else {
      SelectedMembers(us, version, us[|us| - 1]);
    }
  }

  /** A tag recorded at the latest version re-runs the updaters at that
      version (the skip test is `<`, not `<=`) and no others. */
  lemma LatestIsReselected(us: seq<Updater>)
    requires Sorted(us) && us != []
    ensures var latest := us[|us| - 1].version;
            Selected(us, latest) != [] &&
            forall i :: 0 <= i < |Selected(us, latest)| ==> Selected(us, latest)[i].version == latest
  {
    var latest := us[|us| - 1].version;
    SelectedOfSortedIsSuffix(us, latest);
  }
}
