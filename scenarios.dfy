/**
 * Properties of the registry seen from a caller: what registering several
 * updaters for one release yields, which updaters a tag selects, and when
 * migrating a migrated tag again changes nothing.
 */
module Scenarios {
  import opened Bits
  import opened Versions
  import opened Tags
  import opened Updaters
  import opened TagUpdaterContext

  /** Three default registrations for one release on a fresh registry get
      that release's version with sequence numbers 0, 1 and 2. */
  method RegisterOneReleaseThrice(major: int, minor: int, patch: int,
                                  first: Tag -> (Tag, bool), second: Tag -> (Tag, bool), third: Tag -> (Tag, bool))
    returns (v1: Version, v2: Version, v3: Version)
    requires 0 <= major < 0x100 && 0 <= minor < 0x100 && 0 <= patch < 0x100
    ensures v1 == MakeVersion(major, minor, patch) && v2 == v1 + 1 && v3 == v1 + 2
  {
    var release := MakeVersion(major, minor, patch);
    var context := new CompoundTagUpdaterContext();
    var u1 := context.AddUpdater(major, minor, patch, first);
    assert context.LatestVersion() == release;
    var u2 := context.AddUpdater(major, minor, patch, second);
    assert context.LatestVersion() == release + 1;
    assert BaseVersion(release + 1) == release && UpdaterVersion(release + 1) == 1 by {
      ModUnique(release + 1, 0x100, release / 0x100, 1);
      ModUnique(release, 0x100, release / 0x100, 0);
    }
    var u3 := context.AddUpdater(major, minor, patch, third);
    v1, v2, v3 := u1.version, u2.version, u3.version;
  }

  /** Migrating an already migrated tag again, at the latest version, gives
      the same tag back if the updaters registered at the latest version
      report no change on it. This is the no-change fast path of `update`
      applied to the result of the first migration: it holds for any tag
      recorded at the latest version, so the first call only supplies the
      tag. */
  method UpdateTwice(context: CompoundTagUpdaterContext, tag: Tag, version: Version) returns (once: Tag, twice: Tag)
    ensures !ApplyAll(Selected(context.updaters, context.LatestVersion()), once).1 ==> twice == once
  {
    once := context.Update(tag, version);
    twice := context.Update(once, context.LatestVersion());
  }

  function AddField(name: string): Tag -> (Tag, bool)
  {
    t => (t[name := IntTag(1)], true)
  }

  /** Of two updaters at increasing versions, a tag recorded at the second
      one's version selects only the second, one recorded at the first
      one's version selects both, in order. */
  lemma TwoUpdaterSelection(a: Updater, b: Updater)
    requires a.version < b.version
    ensures Selected([a, b], b.version) == [b]
    ensures Selected([a, b], a.version) == [a, b]
  {
    assert [a, b][..1] == [a];
  }

  /** Two field-adding updaters A ("x") and B ("y") at increasing versions:
      a tag recorded at B's version gets only B, one recorded at A's gets
      both, A first. */
  lemma TwoFieldUpdaters(tag: Tag, a: Updater, b: Updater)
    requires "x" !in tag && "y" !in tag
    requires a.version < b.version && a.update == AddField("x") && b.update == AddField("y")
    ensures "x" !in Applied([a, b], tag, b.version)
    ensures "y" in Applied([a, b], tag, b.version)
    ensures Applied([a, b], tag, a.version) == tag["x" := IntTag(1)]["y" := IntTag(1)]
  {
    TwoUpdaterSelection(a, b);
    var t1 := tag["x" := IntTag(1)];
    assert [b][..0] == [] && [a, b][..1] == [a] && [a][..0] == [];
    assert ApplyAll([a], tag) == (t1, true);
    assert ApplyAll([a, b], tag) == (t1["y" := IntTag(1)], true);
    assert ApplyAll([b], tag) == (tag["y" := IntTag(1)], true);
  }

  /** The same with A at release 1.0.0 and B at release 1.1.0. */
  lemma SelectiveApplication(tag: Tag)
    requires "x" !in tag && "y" !in tag
    ensures var a := Updater(MakeVersion(1, 0, 0), AddField("x"));
            var b := Updater(MakeVersion(1, 1, 0), AddField("y"));
            && Selected([a, b], MakeVersion(1, 1, 0)) == [b]
            && Selected([a, b], MakeVersion(1, 0, 0)) == [a, b]
            && "x" !in Applied([a, b], tag, MakeVersion(1, 1, 0))
            && "y" in Applied([a, b], tag, MakeVersion(1, 1, 0))
            && Applied([a, b], tag, MakeVersion(1, 0, 0)) == tag["x" := IntTag(1)]["y" := IntTag(1)]
  {
    MakeVersionOrder(1, 0, 0, 1, 1, 0);
    var a := Updater(MakeVersion(1, 0, 0), AddField("x"));
    var b := Updater(MakeVersion(1, 1, 0), AddField("y"));
    TwoUpdaterSelection(a, b);
    TwoFieldUpdaters(tag, a, b);
  }
}
