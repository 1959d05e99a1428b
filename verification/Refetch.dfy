/** What a mount change does to the derived table: on Linux every one of them fetches the volumes anew, without a
    rebuild. */
module Refetch {
  import opened CStrings
  import opened DrvKext

  function SeenOps(mounted: seq<Volume>): seq<Op> {
    if mounted == [] then []
    else
      var n := |mounted| - 1;
      SeenOps(mounted[..n]) + [VolumeSeen(mounted[n].deviceName, mounted[n].basePath, mounted[n].busType)]
  }

  /** A fetch is a run of the operations it consists of. */
  lemma {:induction false} FetchIsRun(s: State, mounted: seq<Volume>)
    ensures Run(s, [VolumesCleared] + SeenOps(mounted)) == Fetched(s, mounted)
  {
    var ops := [VolumesCleared] + SeenOps(mounted);
    if mounted == [] {
      assert ops == [VolumesCleared] && ops[..0] == [];
    } else {
      var n := |mounted| - 1;
      FetchIsRun(s, mounted[..n]);
      assert ops[..|ops| - 1] == [VolumesCleared] + SeenOps(mounted[..n]);
    }
  }

  // ---- The table grows at its end ----

  /** The entries a fetch adds, whatever the table held before. */
  function Fresh(s: State, mounted: seq<Volume>): seq<DeviceEx> {
    Fetched(s.(table := []), mounted).table
  }

  lemma {:induction false} FetchAppends(s: State, mounted: seq<Volume>)
    ensures Fetched(s, mounted) == Fetched(s.(table := []), mounted).(table := s.table + Fresh(s, mounted))
  {
    if mounted != [] {
      var n := |mounted| - 1;
      FetchAppends(s, mounted[..n]);
      SeeAppends(Fetched(s.(table := []), mounted[..n]), s.table, mounted[n]);
    }
    hide SeeVolume;
  }

  lemma SeeAppends(s: State, behind: seq<DeviceEx>, v: Volume)
    ensures SeeVolume(s.(table := behind + s.table), v.deviceName, v.basePath, v.busType)
         == var t := SeeVolume(s, v.deviceName, v.basePath, v.busType); t.(table := behind + t.table)
  {
    hide FirstKnown, Resolve;
    assert forall e: seq<DeviceEx> :: behind + (s.table + e) == (behind + s.table) + e;
  }

  /** Old entries govern first: a path with a governing entry keeps it through every fetch, mounted or not, and only
      the other paths see the new entries. */
  lemma OldEntriesGovern(s: State, mounted: seq<Volume>, path: string)
    ensures Governing(Fetched(s, mounted).table, path)
         == if Governing(s.table, path).Some? then Governing(s.table, path) else Governing(Fresh(s, mounted), path)
  {
    FetchAppends(s, mounted);
    GoverningConcat(s.table, Fresh(s, mounted), path);
    hide Fetched, Fresh;
  }

  // ---- Agreement ----

  /** No device name is a prefix of an earlier one, so that no volume counts as known. */
  predicate Unrelated(mounted: seq<Volume>) {
    forall i, j | 0 <= i < j < |mounted| :: !(mounted[j].deviceName <= mounted[i].deviceName)
  }

  lemma {:induction false} NoneKnown(volumes: seq<Volume>, deviceName: string)
    requires forall i | 0 <= i < |volumes| :: !(deviceName <= volumes[i].deviceName)
    ensures FirstKnown(volumes, deviceName).None?
  {
    if volumes != [] {
      NoneKnown(volumes[1..], deviceName);
    }
  }

  lemma AddUnrelated(s: State, before: seq<Volume>, v: Volume)
    requires FirstKnown(before, v.deviceName).None?
    ensures SeeVolume(s.(volumes := before, table := s.table + Recompute(s.policies, s.excepts, before)),
                      v.deviceName, v.basePath, v.busType)
         == s.(volumes := before + [v], table := s.table + Recompute(s.policies, s.excepts, before + [v]))
  {
    hide Resolve, FirstKnown;
    var r, e := Recompute(s.policies, s.excepts, before), Resolve(s.policies, s.excepts, v);
    assert (before + [v])[..|before|] == before;
    Reassociate(s.table, r, e);
  }

  /** Fetching unrelated volumes puts a whole new recomputation behind the old table. */
  lemma {:induction false} FetchUnrelated(s: State, mounted: seq<Volume>)
    requires Unrelated(mounted)
    ensures Fetched(s, mounted) == s.(volumes := mounted, table := s.table + Recompute(s.policies, s.excepts, mounted))
  {
    hide Resolve, SeeVolume;
    if mounted == [] {
      assert s.table + [] == s.table;
    } else {
      var n := |mounted| - 1;
      FetchUnrelated(s, mounted[..n]);
      NoneKnown(mounted[..n], mounted[n].deviceName);
      AddUnrelated(s, mounted[..n], mounted[n]);
      assert mounted == mounted[..n] + [mounted[n]];
    }
  }

  lemma KnownIndex(s: State, v: Volume)
    ensures var known := FirstKnown(s.volumes, v.deviceName);
            SeeVolume(s, v.deviceName, v.basePath, v.busType) ==
            match known
            case None => AddVolume(s, v)
            case Some(i) =>
              if v.busType == s.volumes[i].busType then s else ChangeVolume(s, i, Moved(s.volumes[i], v.basePath, v.busType))
  {
  }

  /** A fetch into an empty table adds at least one entry for each that a recomputation has. */
  lemma {:induction false} FreshSuffices(s: State, mounted: seq<Volume>)
    ensures var t := Fetched(s.(table := []), mounted);
            |Recompute(s.policies, s.excepts, t.volumes)| <= |t.table|
  {
    if mounted != [] {
      var n := |mounted| - 1;
      FreshSuffices(s, mounted[..n]);
      SeeSuffices(Fetched(s.(table := []), mounted[..n]), mounted[n]);
    }
    hide SeeVolume, Recompute;
  }

  lemma SeeSuffices(s: State, v: Volume)
    requires |Recompute(s.policies, s.excepts, s.volumes)| <= |s.table|
    ensures var t := SeeVolume(s, v.deviceName, v.basePath, v.busType);
            |Recompute(t.policies, t.excepts, t.volumes)| <= |t.table|
  {
    hide Resolve, SeeVolume;
    KnownIndex(s, v);
    var known := FirstKnown(s.volumes, v.deviceName);
    if known.None? {
      assert (s.volumes + [v])[..|s.volumes|] == s.volumes;
    } else {
      var i, v' := known.value, Moved(s.volumes[known.value], v.basePath, v.busType);
      RecomputeAround(s.policies, s.excepts, s.volumes, i);
      RecomputeAround(s.policies, s.excepts, s.volumes[i := v'], i);
      assert s.volumes[i := v'][..i] == s.volumes[..i] && s.volumes[i := v'][i + 1..] == s.volumes[i + 1..];
    }
    hide Recompute;
  }

  /** After a mount change no table that held an entry agrees with its recomputation, whatever is mounted now and
      however well it agreed before. */
  lemma StaleNeverAgrees(s: State, mounted: seq<Volume>)
    requires s.table != []
    ensures !Agreement(Fetched(s, mounted))
  {
    FetchAppends(s, mounted);
    FreshSuffices(s, mounted);
    var t := Fetched(s, mounted);
    assert |Recompute(t.policies, t.excepts, t.volumes)| < |t.table|;
    hide Fetched, Recompute;
  }

  /** With unrelated volumes the table agrees after a mount change iff it was empty before. */
  lemma FetchAgreesExactly(s: State, mounted: seq<Volume>)
    requires Unrelated(mounted)
    ensures Agreement(Fetched(s, mounted)) <==> s.table == []
  {
    FetchUnrelated(s, mounted);
    var r := Recompute(s.policies, s.excepts, mounted);
    assert s.table == [] ==> s.table + r == r;
    assert s.table != [] ==> |s.table + r| > |r|;
  }

  // ---- Many mount changes ----

  function FetchedAll(s: State, fetches: seq<seq<Volume>>): State {
    if fetches == [] then s else Fetched(FetchedAll(s, fetches[..|fetches| - 1]), fetches[|fetches| - 1])
  }

  function Stacked(s: State, fetches: seq<seq<Volume>>): seq<DeviceEx> {
    if fetches == [] then []
    else
      var n := |fetches| - 1;
      Stacked(s, fetches[..n]) + Recompute(s.policies, s.excepts, fetches[n])
  }

  /** Mount changes with no new policies or exceptions in between stack one recomputation upon the other. */
  lemma {:induction false} FetchesStack(s: State, fetches: seq<seq<Volume>>)
    requires forall i | 0 <= i < |fetches| :: Unrelated(fetches[i])
    ensures var t := FetchedAll(s, fetches);
            && t.table == s.table + Stacked(s, fetches)
            && t.policies == s.policies && t.excepts == s.excepts
            && (fetches != [] ==> t.volumes == fetches[|fetches| - 1])
  {
    hide Recompute, Unrelated, Fetched;
    if fetches == [] {
      assert s.table + [] == s.table;
    } else {
      var n := |fetches| - 1;
      FetchesStack(s, fetches[..n]);
      FetchUnrelated(FetchedAll(s, fetches[..n]), fetches[n]);
      Reassociate(s.table, Stacked(s, fetches[..n]), Recompute(s.policies, s.excepts, fetches[n]));
    }
  }

  lemma Reassociate(a: seq<DeviceEx>, b: seq<DeviceEx>, c: seq<DeviceEx>)
    ensures (a + b) + c == a + (b + c)
  {
  }

  lemma {:induction false} StackedSame(s: State, fetches: seq<seq<Volume>>, mounted: seq<Volume>)
    requires forall i | 0 <= i < |fetches| :: fetches[i] == mounted
    ensures |Stacked(s, fetches)| == |fetches| * |Recompute(s.policies, s.excepts, mounted)|
  {
    hide Recompute;
    if fetches != [] {
      StackedSame(s, fetches[..|fetches| - 1], mounted);
    }
  }

  /** Mount changes that leave the same volumes mounted fit the table iff their number times the number of entries
      still does: few volumes use up its 36 places too, given time. */
  lemma RefetchesFitExactly(s: State, mounted: seq<Volume>, fetches: seq<seq<Volume>>)
    requires Unrelated(mounted) && forall i | 0 <= i < |fetches| :: fetches[i] == mounted
    ensures |FetchedAll(s, fetches).table| <= MAX_DEVICE
       <==> |s.table| + |fetches| * |Recompute(s.policies, s.excepts, mounted)| <= MAX_DEVICE
  {
    FetchesStack(s, fetches);
    StackedSame(s, fetches, mounted);
    hide FetchedAll, Stacked, Recompute;
  }

  /** The next policy or exception message repairs the table, however many mount changes came before. */
  lemma RebuildRepairs(s: State, fetches: seq<seq<Volume>>, op: Op)
    requires op.SetPolicy? || op.SetExcept? || op.Refresh?
    ensures var t := Apply(FetchedAll(s, fetches), op);
            Agreement(t) && |t.table| <= |t.volumes|
  {
    RebuildAgrees(FetchedAll(s, fetches), op);
  }
}
