/** The bounded journal of row changes from which live queries catch up. */
module ChangeJournal {
  import opened Values
  import opened Rows

  const MAX_ROW_CHANGE_JOURNAL_ENTRIES: nat := 65_536
  const MAX_ROW_CHANGE_JOURNAL_VERSIONS: nat := 1_024

  function PositiveOrDefault(value: Option<int>, fallback: nat): nat {
    if value.Some? && value.value > 0 then value.value else fallback
  }

  function ChangeTotal(batches: seq<Batch>): nat {
    if batches == [] then 0 else |batches[0].changes| + ChangeTotal(batches[1..])
  }

  lemma {:induction false} ChangeTotalAppend(batches: seq<Batch>, batch: Batch)
    ensures ChangeTotal(batches + [batch]) == ChangeTotal(batches) + |batch.changes|
  {
    if batches != [] {
      ChangeTotalAppend(batches[1..], batch);
      assert (batches + [batch])[1..] == batches[1..] + [batch];
    }
  }

  /** What is kept once a batch has joined: the latest versions, or nothing when they hold too many changes. */
  ghost function Trimmed(batches: seq<Batch>, maxVersions: nat, maxEntries: nat): seq<Batch> {
    var latest := if |batches| > maxVersions then batches[|batches| - maxVersions..] else batches;
    if ChangeTotal(latest) > maxEntries then [] else latest
  }

  lemma TrimmedTo(batches: seq<Batch>, latest: seq<Batch>, maxVersions: nat, maxEntries: nat)
    requires latest == if |batches| > maxVersions then batches[|batches| - maxVersions..] else batches
    ensures Trimmed(batches, maxVersions, maxEntries) == if ChangeTotal(latest) > maxEntries then [] else latest
  {
  }

  lemma WithoutFirst(batches: seq<Batch>)
    requires batches != []
    ensures ChangeTotal(batches) == |batches[0].changes| + ChangeTotal(batches[1..])
  {
  }

  /** Retained batches bear the latest versions, and each leads from one committed table to the next. */
  ghost predicate BatchFits(batches: seq<Batch>, history: seq<Table>, i: nat)
    requires i < |batches| < |history|
  {
    var before := |history| - 1 - |batches| + i;
    && batches[i].version == before + 1
    && Replay(history[before], batches[i].changes) == Some(history[before + 1])
  }

  /** Batches of the versions that follow `version`, one each. */
  ghost predicate Consecutive(batches: seq<Batch>, version: int) {
    forall i | 0 <= i < |batches| :: batches[i].version == version + 1 + i
  }

  /** The later batches lead from a version to a later one. */
  ghost predicate Leads(later: seq<Batch>, history: seq<Table>, version: nat) {
    && version + |later| < |history| && Consecutive(later, version)
    && ReplayBatches(history[version], later) == Some(history[version + |later|])
  }

  lemma NoBatchesLead(history: seq<Table>, version: nat)
    requires version < |history|
    ensures Leads([], history, version)
  {
  }

  lemma LeadsFurther(later: seq<Batch>, batches: seq<Batch>, history: seq<Table>, version: nat, i: nat)
    requires i < |batches| < |history| && BatchFits(batches, history, i) && Leads(later, history, version)
    requires version + |later| == |history| - 1 - |batches| + i
    ensures Leads(later + [batches[i]], history, version)
  {
    assert (later + [batches[i]])[..|later|] == later;
  }

  class TopicRowChangeJournal {
    var pendingChanges: seq<Change>
    var pendingChangesOverflowed: bool
    var batches: seq<Batch>
    var changeCount: nat
    var invalidBeforeVersion: nat
    var refs: nat
    const maxEntries: nat
    const maxVersions: nat

    /** The table as committed at every version since the last reset. */
    ghost var history: seq<Table>
    /** The table including changes that are not committed yet. */
    ghost var live: Table

    ghost predicate Valid()
      reads this
    {
      && maxEntries > 0 && maxVersions > 0
      && |history| >= 1
      && |batches| < |history| && |batches| <= maxVersions
      && (forall i | 0 <= i < |batches| :: BatchFits(batches, history, i))
      && (batches != [] ==> invalidBeforeVersion <= Oldest())
      && changeCount == ChangeTotal(batches) && changeCount <= maxEntries && |pendingChanges| <= maxEntries
      && (refs == 0 ==> pendingChanges == [] && batches == [] && !pendingChangesOverflowed)
      && (refs > 0 && !pendingChangesOverflowed ==> Replay(history[|history| - 1], pendingChanges) == Some(live))
      && (pendingChangesOverflowed ==> pendingChanges == [] && batches == [] && invalidBeforeVersion == |history|)
    }

    /** The oldest version the retained batches start from. */
    ghost function Oldest(): nat
      requires |batches| < |history|
      reads this
    {
      |history| - 1 - |batches|
    }

    /** No mutation is under way. */
    ghost predicate Settled()
      reads this
    {
      |history| >= 1 && live == history[|history| - 1] && !pendingChangesOverflowed
    }

    /** A reset that left the journal retained has been followed by the releases that belong to it. */
    ghost predicate Ready()
      reads this
    {
      refs > 0 && !pendingChangesOverflowed ==> invalidBeforeVersion < |history|
    }

    constructor (maxEntries: Option<int>, maxVersions: Option<int>)
      ensures Valid() && Settled() && Ready()
      ensures history == [map[]] && live == map[] && refs == 0
      ensures this.maxEntries == PositiveOrDefault(maxEntries, MAX_ROW_CHANGE_JOURNAL_ENTRIES)
      ensures this.maxVersions == PositiveOrDefault(maxVersions, MAX_ROW_CHANGE_JOURNAL_VERSIONS)
    {
      pendingChanges, pendingChangesOverflowed, batches := [], false, [];
      changeCount, invalidBeforeVersion, refs := 0, 0, 0;
      this.maxEntries := PositiveOrDefault(maxEntries, MAX_ROW_CHANGE_JOURNAL_ENTRIES);
      this.maxVersions := PositiveOrDefault(maxVersions, MAX_ROW_CHANGE_JOURNAL_VERSIONS);
      history, live := [map[]], map[];
    }

    /** The versions `changesSince` can answer for. */
    ghost predicate Covers(version: int)
      requires |batches| < |history|
      reads this
    {
      || version == |history| - 1
      || (refs > 0 && Oldest() <= version < |history| - 1)
    }

    /** The retained batches that lead from a covered version to the present one. */
    ghost function Since(version: int): seq<Batch>
      requires |batches| < |history| && Covers(version)
      reads this
    {
      batches[version - Oldest()..]
    }

    /** The batches committed after `version`. Replaying them on the table as it was at that version gives
        the table as it is now; they are returned exactly when the journal still covers the version. */
    method ChangesSince(version: int, currentVersion: nat) returns (result: Option<seq<Batch>>)
      requires Valid() && currentVersion == |history| - 1
      ensures result.Some? <==> Covers(version)
      ensures result.Some? ==> result.value == Since(version)
      ensures result.Some? ==>
        0 <= version <= currentVersion && ReplayBatches(history[version], result.value) == Some(history[currentVersion])
      ensures result.Some? ==> Consecutive(result.value, version) && version + |result.value| == currentVersion
    {
      hide Replay, ChangeTotal, ReplayBatches, TopicRowChangeJournal.Settled;
      if version == currentVersion {
        NoBatchesLead(history, version);
        return Some([]);
      }
      if refs == 0 || version < 0 || version > currentVersion {
        return None;
      }
      if version < invalidBeforeVersion {
        return None;
      }
      if |batches| == 0 {
        return None;
      }
      assert BatchFits(batches, history, 0);
      if version < batches[0].version - 1 {
        return None;
      }
      var later: seq<Batch> := [];
      NoBatchesLead(history, version);
      for i := 0 to |batches|
        invariant |later| == if i <= version - Oldest() then 0 else i - (version - Oldest())
        invariant later == if i <= version - Oldest() then [] else batches[version - Oldest()..i]
        invariant Leads(later, history, version)
      {
        assert BatchFits(batches, history, i);
        if batches[i].version > version {
          LeadsFurther(later, batches, history, version, i);
          later := later + [batches[i]];
        }
      }
      assert version + |later| == currentVersion && Covers(version);
      assert later == Since(version);
      return Some(later);
    }

    method Clear(currentVersion: nat)
      requires |history| >= 1 && maxEntries > 0 && maxVersions > 0
      modifies this`pendingChanges, this`pendingChangesOverflowed, this`batches, this`changeCount,
          this`invalidBeforeVersion
      ensures pendingChanges == [] && !pendingChangesOverflowed && batches == [] && changeCount == 0
      ensures invalidBeforeVersion == currentVersion
      ensures Settled() ==> Valid()
    {
      pendingChanges := [];
      pendingChangesOverflowed := false;
      batches := [];
      changeCount := 0;
      invalidBeforeVersion := currentVersion;
    }

    /** Closes the pending changes into the batch of the version just reached. */
    method Commit(currentVersion: nat)
      requires Valid() && Ready() && currentVersion == |history|
      modifies this
      ensures Valid() && Ready() && Settled()
      ensures history == old(history) + [old(live)] && live == old(live) && refs == old(refs)
      ensures pendingChanges == []
      ensures batches ==
              if old(refs) == 0 || old(pendingChangesOverflowed) then []
              else Trimmed(old(batches) + [Batch(old(pendingChanges), currentVersion)], maxVersions, maxEntries)
    {
      if refs == 0 {
        history := history + [live];
        return;
      }
      if pendingChangesOverflowed {
        pendingChanges := [];
        pendingChangesOverflowed := false;
        history := history + [live];
        return;
      }
      var changes := pendingChanges;
      ChangeTotalAppend(batches, Batch(changes, currentVersion));
      batches := batches + [Batch(changes, currentVersion)];
      pendingChanges := [];
      changeCount := changeCount + |changes|;
      history := history + [live];
      assert forall i | 0 <= i < |batches| :: BatchFits(batches, history, i) by {
        forall i | 0 <= i < |batches|
          ensures BatchFits(batches, history, i)
        {
          assert i < |batches| - 1 ==> old(BatchFits(batches, history, i));
        }
      }
      Trim(currentVersion);
    }

    /** Drops the oldest batches beyond the version limit, and everything when the entries are too many. */
    method Trim(currentVersion: nat)
      requires maxEntries > 0 && maxVersions > 0 && refs > 0 && !pendingChangesOverflowed && pendingChanges == []
      requires |history| >= 1 && |batches| < |history| && currentVersion == |history| - 1 && Settled()
      requires forall i | 0 <= i < |batches| :: BatchFits(batches, history, i)
      requires batches != [] && invalidBeforeVersion <= Oldest() && changeCount == ChangeTotal(batches)
      modifies this`batches, this`changeCount, this`invalidBeforeVersion, this`pendingChanges,
          this`pendingChangesOverflowed
      ensures Valid() && Ready() && Settled()
      ensures pendingChanges == [] && batches == Trimmed(old(batches), maxVersions, maxEntries)
    {
      hide BatchFits, Trimmed;
      DropOldest();
      TrimmedTo(old(batches), batches, maxVersions, maxEntries);
      if changeCount > maxEntries {
        Invalidate(currentVersion);
      }
    }

    method DropOldest()
      requires maxVersions > 0 && |batches| < |history| && changeCount == ChangeTotal(batches)
      requires forall i | 0 <= i < |batches| :: BatchFits(batches, history, i)
      requires batches != [] && invalidBeforeVersion <= Oldest()
      modifies this`batches, this`changeCount
      ensures batches != [] && |batches| <= maxVersions && changeCount == ChangeTotal(batches)
      ensures |batches| < |history| && invalidBeforeVersion <= Oldest()
      ensures batches ==
        if |old(batches)| > maxVersions then old(batches)[|old(batches)| - maxVersions..] else old(batches)
      ensures forall i | 0 <= i < |batches| :: BatchFits(batches, history, i)
    {
      hide Replay, ChangeTotal;
      ghost var all := batches;
      while |batches| > maxVersions
        invariant 0 < |batches| <= |all| && batches == all[|all| - |batches|..]
        invariant |all| > maxVersions ==> |batches| >= maxVersions
        invariant |all| <= maxVersions ==> batches == all
        invariant |batches| < |history| && invalidBeforeVersion <= Oldest() && changeCount == ChangeTotal(batches)
        invariant forall i | 0 <= i < |batches| :: BatchFits(batches, history, i)
      {
        label Before:
        WithoutFirst(batches);
        changeCount := changeCount - |batches[0].changes|;
        batches := batches[1..];
        forall i | 0 <= i < |batches|
          ensures BatchFits(batches, history, i)
        {
          assert old@Before(BatchFits(batches, history, i + 1));
        }
      }
    }

    method Invalidate(invalidBefore: nat)
      requires |history| >= 1 && maxEntries > 0 && maxVersions > 0
      modifies this`pendingChanges, this`pendingChangesOverflowed, this`batches, this`changeCount,
          this`invalidBeforeVersion
      ensures pendingChanges == [] && !pendingChangesOverflowed && batches == [] && changeCount == 0
      ensures invalidBeforeVersion == invalidBefore
    {
      Clear(invalidBefore);
      invalidBeforeVersion := invalidBefore;
    }

    /** Notes one change of the mutation under way; too many changes make the coming version one that no
        reader can reach through the journal. */
    method Record(change: Change, currentVersion: nat)
      requires Valid() && Ready() && currentVersion == |history| - 1
      requires Truthful(live, change)
      modifies this
      ensures Valid() && Ready()
      ensures history == old(history) && live == ApplyChange(old(live), change) && refs == old(refs)
      ensures old(refs) == 0 || old(pendingChangesOverflowed) ==>
        unchanged(this`pendingChanges, this`pendingChangesOverflowed, this`batches)
      ensures old(refs) > 0 && !old(pendingChangesOverflowed) && |old(pendingChanges)| < maxEntries ==>
        pendingChanges == old(pendingChanges) + [change] && unchanged(this`pendingChangesOverflowed, this`batches)
      ensures old(refs) > 0 && !old(pendingChangesOverflowed) && |old(pendingChanges)| >= maxEntries ==>
        pendingChangesOverflowed && batches == []
    {
      live := ApplyChange(live, change);
      if refs == 0 || pendingChangesOverflowed {
        return;
      }
      if |pendingChanges| + 1 > maxEntries {
        Invalidate(currentVersion + 1);
        pendingChangesOverflowed := true;
        return;
      }
      assert (pendingChanges + [change])[..|pendingChanges|] == pendingChanges;
      pendingChanges := pendingChanges + [change];
    }

    method Release(currentVersion: nat)
      requires Valid() && Settled() && currentVersion == |history| - 1
      modifies this
      ensures Valid() && Settled()
      ensures history == old(history) && live == old(live)
      ensures refs == if old(refs) > 0 then old(refs) - 1 else 0
      ensures old(Ready()) || refs == 0 ==> Ready()
      ensures batches == if refs > 0 then old(batches) else []
    {
      refs := if refs > 0 then refs - 1 else 0;
      if refs == 0 {
        Clear(currentVersion);
      }
    }

    method Retain(currentVersion: nat)
      requires Valid() && Settled() && currentVersion == |history| - 1
      modifies this
      ensures Valid() && Settled()
      ensures history == old(history) && live == old(live) && refs == old(refs) + 1
      ensures old(Ready()) ==> Ready()
      ensures batches == if old(refs) > 0 then old(batches) else []
    {
      refs := refs + 1;
      if refs == 1 {
        Clear(currentVersion);
      }
    }

    /** The journal's part of a reset: the store empties its table and starts again at version 0. */
    ghost method Restart()
      requires Valid() && pendingChanges == [] && batches == [] && !pendingChangesOverflowed
      modifies this`history, this`live
      ensures Valid() && Settled() && history == [map[]] && live == map[]
    {
      history, live := [map[]], map[];
    }
  }
}
