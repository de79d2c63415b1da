/**
 * `CompoundTagUpdaterContext`: the registry of updaters. Updaters are added
 * in release order and kept sorted by version; a tag recorded at some
 * version is brought up to date by running, in order, every updater whose
 * version is not below its own.
 */
module TagUpdaterContext {
  import opened Wrappers
  import opened Bits
  import opened Versions
  import opened Tags
  import opened Updaters

  class CompoundTagUpdaterContext {
    /** The registered updaters, in ascending version order. */
    var updaters: seq<Updater>

    ghost predicate Valid()
      reads this
    {
      Sorted(updaters)
    }

    constructor ()
      ensures Valid() && updaters == []
    {
      updaters := [];
    }

    /** `getLatestUpdater`: the last updater of the list, `None` for null. */
    function LatestUpdater(): (r: Option<Updater>)
      reads this
      ensures r.None? <==> updaters == []
      ensures r.Some? ==> r.value in updaters
      ensures r.Some? && Valid() ==> forall u :: u in updaters ==> u.version <= r.value.version
    {
      if updaters == [] then None else Some(updaters[|updaters| - 1])
    }

    /** `getLatestVersion`: the highest registered version, 0 when none is. */
    function LatestVersion(): (v: Version)
      reads this
      ensures updaters == [] ==> v == 0
      ensures updaters != [] ==> exists u :: u in updaters && u.version == v
      ensures Valid() ==> forall u :: u in updaters ==> u.version <= v
    {
      match LatestUpdater()
      case None => 0
      case Some(u) => u.version
    }

    /**
     * `addUpdater(major, minor, patch, resetVersion, bumpVersion)`. The
     * sequence number restarts at 0 for a reset, an empty registry or a new
     * release; otherwise it is the latest updater's, bumped by one when
     * `bumpVersion` is set. Nothing stops a bump past 255: the sequence
     * number 256 is or-ed into the release and sets the low bit of its
     * patch byte. The source returns the new updater's builder, through
     * which the caller then appends steps; here the steps come in as
     * `update` and the updater itself is returned.
     */
    method AddUpdaterWithOptions(major: Int32, minor: Int32, patch: Int32, resetVersion: bool, bumpVersion: bool,
                                 update: Tag -> (Tag, bool)) returns (updater: Updater)
      requires Valid()
      modifies this
      ensures Valid()
      ensures updater.update == update
      ensures var sequence := NextSequence(old(updaters), MakeVersion(major, minor, patch), resetVersion, bumpVersion);
              updater.version == MergeVersions(MakeVersion(major, minor, patch), sequence) &&
              (sequence < 0x100 ==>
                 BaseVersion(updater.version) == MakeVersion(major, minor, patch) &&
                 UpdaterVersion(updater.version) == sequence)
      ensures updaters == Insert(old(updaters), updater)
      ensures multiset(updaters) == multiset(old(updaters)) + multiset{updater}
      ensures old(updaters) == [] || old(LatestVersion()) <= updater.version ==>
                updaters == old(updaters) + [updater] && LatestVersion() == updater.version
    {
      ghost var before, latest := updaters, LatestVersion();
      var version := MakeVersion(major, minor, patch);
      var prevUpdater := LatestUpdater();
      var updaterVersion: Int32;
      if resetVersion || prevUpdater.None? || BaseVersion(prevUpdater.value.version) != version {
        updaterVersion := 0;
      } else {
        updaterVersion := UpdaterVersion(prevUpdater.value.version);
        if bumpVersion {
          updaterVersion := updaterVersion + 1;
        }
      }
      assert updaterVersion == NextSequence(before, version, resetVersion, bumpVersion);
      version := MergeVersions(version, updaterVersion);
      updater := Updater(version, update);
      updaters := Insert(updaters, updater);
      assert before == [] || latest <= updater.version ==> updaters == before + [updater];
    }

    /** `addUpdater(major, minor, patch, resetVersion)`: bumps the sequence. */
    method AddUpdaterWithReset(major: Int32, minor: Int32, patch: Int32, resetVersion: bool,
                               update: Tag -> (Tag, bool)) returns (updater: Updater)
      requires Valid()
      modifies this
      ensures Valid()
      ensures updater.update == update
      ensures var sequence := NextSequence(old(updaters), MakeVersion(major, minor, patch), resetVersion, true);
              updater.version == MergeVersions(MakeVersion(major, minor, patch), sequence) &&
              (sequence < 0x100 ==>
                 BaseVersion(updater.version) == MakeVersion(major, minor, patch) &&
                 UpdaterVersion(updater.version) == sequence)
      ensures updaters == Insert(old(updaters), updater)
      ensures old(updaters) == [] || old(LatestVersion()) <= updater.version ==>
                updaters == old(updaters) + [updater] && LatestVersion() == updater.version
    {
      updater := AddUpdaterWithOptions(major, minor, patch, resetVersion, true, update);
    }

    /** `addUpdater(major, minor, patch)`: no reset, bumps the sequence. The
        first updater of a release gets the release version, each further
        one the latest version plus one, up to sequence number 255. */
    method AddUpdater(major: Int32, minor: Int32, patch: Int32, update: Tag -> (Tag, bool)) returns (updater: Updater)
      requires Valid()
      modifies this
      ensures Valid()
      ensures updater.update == update
      ensures old(updaters) == [] || BaseVersion(old(LatestVersion())) != MakeVersion(major, minor, patch) ==>
                updater.version == MakeVersion(major, minor, patch)
      ensures old(updaters) != [] && BaseVersion(old(LatestVersion())) == MakeVersion(major, minor, patch) &&
              UpdaterVersion(old(LatestVersion())) < 0xFF ==>
                updater.version == old(LatestVersion()) + 1
      ensures updaters == Insert(old(updaters), updater)
      ensures old(updaters) == [] || old(LatestVersion()) <= updater.version ==>
                updaters == old(updaters) + [updater] && LatestVersion() == updater.version
    {
      updater := AddUpdaterWithReset(major, minor, patch, false, update);
    }

    /**
     * `updateStates0`: runs, in list order, every updater whose version is
     * not below `version` on one working copy of `tag`, made on the first
     * such updater. `None` stands for the source's null: no updater ran, or
     * none reported a change. `conversions` counts the `toMutable` calls.
     */
    method UpdateStates0(tag: Tag, version: Version) returns (result: Option<Tag>, ghost conversions: nat)
      ensures result == if Changes(updaters, tag, version) then Some(Applied(updaters, tag, version)) else None
      ensures conversions == if Selected(updaters, version) == [] then 0 else 1
    {
      var mutableTag: Option<Tag> := None;
      var updated := false;
      conversions := 0;
      ghost var selected: seq<Updater> := [];
      for i := 0 to |updaters|
        invariant selected == Selected(updaters[..i], version)
        invariant mutableTag.None? <==> selected == []
        invariant mutableTag.Some? ==> ApplyAll(selected, tag) == (mutableTag.value, updated)
        invariant mutableTag.None? ==> !updated
        invariant conversions == if mutableTag.None? then 0 else 1
      {
        var updater := updaters[i];
        if updater.version < version {
          SelectedSkip(updaters, i, version);
          continue;
        }
        SelectedTake(updaters, i, version);
        if mutableTag.None? {
          // toMutable: a working copy with the same content
          mutableTag := Some(tag);
          conversions := conversions + 1;
        }
        ApplyAllStep(selected, updater, tag);
        var (next, changed) := updater.update(mutableTag.value);
        mutableTag := Some(next);
        updated := updated || changed;
        selected := selected + [updater];
      }
      assert updaters[..|updaters|] == updaters;
      if mutableTag.None? || !updated {
        return None, conversions;
      }
      return mutableTag, conversions;
    }

    /**
     * `update`: brings `tag`, recorded at `version`, up to date and stamps
     * it with the latest version. An untouched tag already at the latest
     * version comes back as it is; an untouched tag at any other version,
     * newer ones included, only has its "version" field rewritten.
     */
    method Update(tag: Tag, version: Version) returns (r: Tag)
      ensures !Changes(updaters, tag, version) && version == LatestVersion() ==> r == tag
      ensures !Changes(updaters, tag, version) && version != LatestVersion() ==>
                r == WithVersion(tag, LatestVersion())
      ensures Changes(updaters, tag, version) ==>
                r == WithVersion(Applied(updaters, tag, version), LatestVersion())
      ensures r == tag || r[VersionKey] == IntTag(LatestVersion())
    {
      var updated, _ := UpdateStates0(tag, version);
      if updated.None? && version != LatestVersion() {
        r := WithVersion(tag, LatestVersion());
      } else if updated.None? {
        r := tag;
      } else {
        // put("version", ...) on the working copy, then toImmutable
        r := WithVersion(updated.value, LatestVersion());
      }
    }

    /** `updateStates`: like `update`, but never writes the "version" field. */
    method UpdateStates(tag: Tag, version: Version) returns (r: Tag)
      ensures r == if Changes(updaters, tag, version) then Applied(updaters, tag, version) else tag
    {
      var updated, _ := UpdateStates0(tag, version);
      r := if updated.None? then tag else updated.value;
    }
  }
}
