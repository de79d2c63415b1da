# CompoundTagUpdaterContext in Dafny

This project models the registry of tag updaters of BlockStateUpdater,
`CompoundTagUpdaterContext`, and proves properties of the model. The registry
migrates compound tags (NBT maps): each tag records the schema version it was
written at. Updaters are registered per release (`major.minor.patch`), and each
one gets a version whose low byte is a per-release sequence number. The
registry keeps the updaters sorted by version. `update` runs every updater
whose version is not below the tag's recorded version, in list order, on one
working copy of the tag, and then stamps the tag with the latest version.

The model has six modules:

- `Bits` (`bits.dfy`): Java `int` as the subset type `Int32`, and Java's `|`
  and `&` (`Or`, `And`), defined bit by bit on the unsigned reading of the
  32-bit pattern. Java's `<<` (`ShiftLeft`) is multiplication of that
  unsigned reading by `2^n`, modulo `2^32`. These three are the reference
  definitions of the operators at lines 16, 20, 24 and 28 of
  `CompoundTagUpdaterContext.java`. The module also has the arithmetic facts
  about them that the codec needs.
- `Versions` (`versions.dfy`): the version codec, i.e. `makeVersion`,
  `baseVersion`, `updaterVersion` and `mergeVersions`. Versions compare as
  Java compares `int`s, which is signed. `Major`, `Minor` and `Patch` read the
  three release bytes back; they are not functions of the source and exist
  only to state the round trip.
- `Tags` (`tags.dfy`): a compound tag as `map<string, Value>`, and the write of
  the integer "version" field.
- `Updaters` (`updaters.dfy`): an updater as a version plus the combined effect
  of its steps (`Tag -> (Tag, bool)`, the rewritten tag and whether a step
  reported a change). This module also has the pure meaning of the registry's
  list operations:
  - `Insert`: the list after `add` and a stable `sort`;
  - `NextSequence`: the sequence-number rule;
  - `Selected`: which updaters a tag at some version runs;
  - `ApplyAll`: running a list of updaters, i.e. the fold
    `updated |= updater.update(mutableTag)` at line 91;
  - `Changes` and `Applied`: the change flag and the tag that fold leaves
    for a recorded version. Together with `Selected` they are the reference
    definitions the `updateStates0` and `update` rows are stated against,
    including the test at line 94.
- `TagUpdaterContext` (`context.dfy`): the class `CompoundTagUpdaterContext`.
  Its field `updaters: seq<Updater>` stays sorted (`Valid`). The `addUpdater`
  overloads are methods that reassign the field. `updateStates0` is a `for`
  loop with an `Option` standing for the nullable working copy. `update`,
  `updateStates`, `getLatestUpdater` and `getLatestVersion` are also members.
- `Scenarios` (`scenarios.dfy`): properties seen from a caller. They cover
  three registrations for one release, two updaters at two releases, and
  migrating a migrated tag again.

Behaviour the model follows because the code does it:

- Versions are ordered as signed `int`s (`<` at line 84 and the sort). A major
  of 128 or more gives a negative version. It sorts before every release
  whose major is below 128 (`HighMajorSortsFirst`). Among themselves, releases
  with majors of 128 or more keep lexicographic order (`HighMajorOrder`).
- The skip test is `updater.getVersion() < version`. So a tag recorded at the
  latest version re-runs the updaters registered at exactly that version, and
  gets a working copy (`LatestIsReselected`). On the sorted registry, a tag
  selects nothing exactly when it is recorded above every registered version
  (`NothingSelectedAboveLatest`, both directions).
- The sequence number is inherited from the last updater of the sorted list,
  which is the one with the highest version, not the one registered last.
- Out-of-range release numbers and a 257th updater for one release (a
  sequence number bumped past 255) are not rejected. The bits spill into the neighbouring bytes, and the model computes
  exactly that.
- Migrating twice gives the same tag as migrating once if the updaters at
  the latest version report no change on the migrated tag (`UpdateTwice`).
  This is the no-change fast path of `update`, which holds for any tag at the
  latest version; the first migration only supplies the tag.

## Model

| member | source | states |
|---|---|---|
| Versions.UpdaterVersion | src/main/java/org/cloudburstmc/blockstateupdater/util/tagupdater/CompoundTagUpdaterContext.java:23-25 | `version & 0xFF` is the low byte of the two's-complement pattern: a value in 0..255 equal to `version % 256` |
| Versions.BaseVersion | src/main/java/org/cloudburstmc/blockstateupdater/util/tagupdater/CompoundTagUpdaterContext.java:19-21 | `version & 0xFFFFFF00` has a clear low byte, is at most `version` and less than 256 below it, and adds up with the sequence number to `version` |
| Versions.ClearLowByte | src/main/java/org/cloudburstmc/blockstateupdater/util/tagupdater/CompoundTagUpdaterContext.java:19-21 | and-ing with the mask `0xFFFFFF00` subtracts the low byte, for negative versions too |
| Versions.MergeVersions | src/main/java/org/cloudburstmc/blockstateupdater/util/tagupdater/CompoundTagUpdaterContext.java:15-17 | for a base with a clear low byte and a sequence number in 0..255, their or is their sum and splits back into exactly that base and sequence number |
| Versions.OrIntoLowByte | src/main/java/org/cloudburstmc/blockstateupdater/util/tagupdater/CompoundTagUpdaterContext.java:15-17 | or-ing a sequence number into a base with a clear low byte adds it, and the sum's low byte is the sequence number |
| Versions.MakeVersion | src/main/java/org/cloudburstmc/blockstateupdater/util/tagupdater/CompoundTagUpdaterContext.java:27-29 | for all `int` arguments the result has sequence number 0 and is its own base version; for byte-sized arguments its unsigned reading is `major·2^24 + minor·2^16 + patch·2^8` |
| Versions.ShiftClearsLowByte | src/main/java/org/cloudburstmc/blockstateupdater/util/tagupdater/CompoundTagUpdaterContext.java:28 | each of the three shifts in `makeVersion` leaves the low byte clear, whatever is shifted |
| Versions.PackBytes | src/main/java/org/cloudburstmc/blockstateupdater/util/tagupdater/CompoundTagUpdaterContext.java:28 | for byte-sized numbers the or of the three shifted numbers is their sum, as an unsigned number |
| Versions.ShiftByte | src/main/java/org/cloudburstmc/blockstateupdater/util/tagupdater/CompoundTagUpdaterContext.java:28 | a byte shifted left by 8, 16 or 24 bits is the byte times 2^8, 2^16 or 2^24, with the low bits clear |
| Versions.MakeVersionRoundTrip | src/main/java/org/cloudburstmc/blockstateupdater/util/tagupdater/CompoundTagUpdaterContext.java:27-29 | major, minor and patch are read back unchanged from the version of a release |
| Versions.UnpackBytes | src/main/java/org/cloudburstmc/blockstateupdater/util/tagupdater/CompoundTagUpdaterContext.java:27-29 | the three release bytes of a packed unsigned value are the numbers packed into it |
| Versions.MakeVersionOrder | src/main/java/org/cloudburstmc/blockstateupdater/util/tagupdater/CompoundTagUpdaterContext.java:27-29 | for majors below 128, `<` on release versions holds exactly when (major, minor, patch) is lexicographically smaller, in both directions |
| Versions.HighMajorSortsFirst | src/main/java/org/cloudburstmc/blockstateupdater/util/tagupdater/CompoundTagUpdaterContext.java:27-29 | a release with major 128 or more has a negative version, below that of every release whose major is below 128 |
| Versions.HighMajorOrder | src/main/java/org/cloudburstmc/blockstateupdater/util/tagupdater/CompoundTagUpdaterContext.java:27-29 | for two releases whose majors are both 128 or more, `<` on their versions holds exactly when (major, minor, patch) is lexicographically smaller, in both directions |
| Tags.WithVersion | src/main/java/org/cloudburstmc/blockstateupdater/util/tagupdater/CompoundTagUpdaterContext.java:64-66 | writing "version" adds exactly that key, sets it to the `int` value and leaves every other field as it was |
| Updaters.InsertionPoint | src/main/java/org/cloudburstmc/blockstateupdater/util/tagupdater/CompoundTagUpdaterContext.java:55-56 | the new updater's place in a sorted list: every updater before it has a version not above its own, every one after it a strictly higher version |
| Updaters.Insert | src/main/java/org/cloudburstmc/blockstateupdater/util/tagupdater/CompoundTagUpdaterContext.java:55-56 | `add` then `sort` gives a list one longer, equal to the old list with the new updater inserted at one position, a permutation of old plus new, sorted if the old list was, stable (every updater not above the new one keeps its index, and on a sorted list every higher one moves up by one), and the old list plus the new updater at the end when the new version is not below the last one |
| Updaters.InsertKeepsOthers | src/main/java/org/cloudburstmc/blockstateupdater/util/tagupdater/CompoundTagUpdaterContext.java:55 | inserting at a position keeps the other updaters, in order, and adds one occurrence of the new one |
| Updaters.InsertKeepsLower | src/main/java/org/cloudburstmc/blockstateupdater/util/tagupdater/CompoundTagUpdaterContext.java:55-56 | inserting at a point after which every updater is above the new one leaves every updater not above it at its index |
| Updaters.InsertShiftsHigher | src/main/java/org/cloudburstmc/blockstateupdater/util/tagupdater/CompoundTagUpdaterContext.java:55-56 | inserting at a point before which no updater is above the new one moves every updater above it up by one index |
| Updaters.InsertKeepsOrder | src/main/java/org/cloudburstmc/blockstateupdater/util/tagupdater/CompoundTagUpdaterContext.java:56 | inserting at the insertion point keeps a sorted list sorted |
| Updaters.NextSequence | src/main/java/org/cloudburstmc/blockstateupdater/util/tagupdater/CompoundTagUpdaterContext.java:43-51 | the sequence number a new updater gets lies in 0..256 |
| Updaters.Selected | src/main/java/org/cloudburstmc/blockstateupdater/util/tagupdater/CompoundTagUpdaterContext.java:83-86 | the run list is no longer than the registry, and every updater on it has a version not below the recorded one |
| Updaters.SelectedMembers | src/main/java/org/cloudburstmc/blockstateupdater/util/tagupdater/CompoundTagUpdaterContext.java:83-86 | an updater runs exactly when it is registered and its version is not below the recorded one |
| Updaters.SelectedSkip | src/main/java/org/cloudburstmc/blockstateupdater/util/tagupdater/CompoundTagUpdaterContext.java:84-86 | an updater below the recorded version adds nothing to the run list |
| Updaters.SelectedTake | src/main/java/org/cloudburstmc/blockstateupdater/util/tagupdater/CompoundTagUpdaterContext.java:83-91 | an updater at or above the recorded version is appended to the run list |
| Updaters.ApplyAllStep | src/main/java/org/cloudburstmc/blockstateupdater/util/tagupdater/CompoundTagUpdaterContext.java:91 | running one more updater applies it to the working copy and ors its change flag into the accumulated one |
| Updaters.SelectedAppend | src/main/java/org/cloudburstmc/blockstateupdater/util/tagupdater/CompoundTagUpdaterContext.java:83-86 | the run list of a concatenation is the concatenation of the run lists |
| Updaters.SelectedNone | src/main/java/org/cloudburstmc/blockstateupdater/util/tagupdater/CompoundTagUpdaterContext.java:84-86 | updaters all below the recorded version are all skipped |
| Updaters.SelectedAll | src/main/java/org/cloudburstmc/blockstateupdater/util/tagupdater/CompoundTagUpdaterContext.java:83-86 | updaters none of which is below the recorded version all run, in order |
| Updaters.FirstSelected | src/main/java/org/cloudburstmc/blockstateupdater/util/tagupdater/CompoundTagUpdaterContext.java:83-86 | in a sorted list the index from which the updaters are not below the recorded version, with every updater before it below |
| Updaters.SelectedSplit | src/main/java/org/cloudburstmc/blockstateupdater/util/tagupdater/CompoundTagUpdaterContext.java:83-86 | a list skipped below an index and run from it selects exactly the suffix from that index |
| Updaters.SelectedOfSortedIsSuffix | src/main/java/org/cloudburstmc/blockstateupdater/util/tagupdater/CompoundTagUpdaterContext.java:83-86 | on the sorted registry the updaters that run are a suffix of the list, and all before it are skipped |
| Updaters.NothingSelectedAboveLatest | src/main/java/org/cloudburstmc/blockstateupdater/util/tagupdater/CompoundTagUpdaterContext.java:83-86 | on a sorted registry a tag runs no updater if and only if it is recorded above every registered version (or nothing is registered) |
| Updaters.LatestIsReselected | src/main/java/org/cloudburstmc/blockstateupdater/util/tagupdater/CompoundTagUpdaterContext.java:84 | a tag recorded at the latest version re-runs the updaters at that version, at least one, and no other |
| TagUpdaterContext.CompoundTagUpdaterContext.constructor | src/main/java/org/cloudburstmc/blockstateupdater/util/tagupdater/CompoundTagUpdaterContext.java:13 | a new registry is empty and sorted |
| TagUpdaterContext.CompoundTagUpdaterContext.LatestUpdater | src/main/java/org/cloudburstmc/blockstateupdater/util/tagupdater/CompoundTagUpdaterContext.java:100-102 | null exactly for an empty registry; otherwise a registered updater, with the highest version when the list is sorted |
| TagUpdaterContext.CompoundTagUpdaterContext.LatestVersion | src/main/java/org/cloudburstmc/blockstateupdater/util/tagupdater/CompoundTagUpdaterContext.java:104-107 | 0 for an empty registry; otherwise the version of a registered updater, and on the sorted list the maximum |
| TagUpdaterContext.CompoundTagUpdaterContext.AddUpdaterWithOptions | src/main/java/org/cloudburstmc/blockstateupdater/util/tagupdater/CompoundTagUpdaterContext.java:39-58 | the new updater's version is the release version merged with the sequence number of the rule; below 256 it splits back into that release and sequence number; the list becomes the old one with the updater inserted, sorted, a permutation of old plus new, and it is appended and becomes the latest when its version is not below the old latest |
| TagUpdaterContext.CompoundTagUpdaterContext.AddUpdaterWithReset | src/main/java/org/cloudburstmc/blockstateupdater/util/tagupdater/CompoundTagUpdaterContext.java:35-37 | the same with `bumpVersion` set |
| TagUpdaterContext.CompoundTagUpdaterContext.AddUpdater | src/main/java/org/cloudburstmc/blockstateupdater/util/tagupdater/CompoundTagUpdaterContext.java:31-33 | the first updater of a release (or of the registry) gets the release version; a further one for the latest release gets the latest version plus one while the sequence number is below 255 |
| TagUpdaterContext.CompoundTagUpdaterContext.UpdateStates0 | src/main/java/org/cloudburstmc/blockstateupdater/util/tagupdater/CompoundTagUpdaterContext.java:80-98 | returns null unless some updater runs and one reports a change, otherwise the tag after the selected updaters ran in order; a working copy is made exactly once if any updater runs and never otherwise |
| TagUpdaterContext.CompoundTagUpdaterContext.Update | src/main/java/org/cloudburstmc/blockstateupdater/util/tagupdater/CompoundTagUpdaterContext.java:60-73 | the three result shapes: the tag itself when nothing changed and it is at the latest version; the tag with only "version" set to the latest when nothing changed at another version (newer ones included); the updated tag stamped with the latest version otherwise |
| TagUpdaterContext.CompoundTagUpdaterContext.UpdateStates | src/main/java/org/cloudburstmc/blockstateupdater/util/tagupdater/CompoundTagUpdaterContext.java:75-78 | the updated tag when something changed, the tag itself otherwise; "version" is never written |
| Scenarios.RegisterOneReleaseThrice | src/main/java/org/cloudburstmc/blockstateupdater/util/tagupdater/CompoundTagUpdaterContext.java:31-58 | three default registrations for one release on a fresh registry get `base`, `base + 1` and `base + 2` |
| Scenarios.UpdateTwice | src/main/java/org/cloudburstmc/blockstateupdater/util/tagupdater/CompoundTagUpdaterContext.java:60-73 | migrating a migrated tag again at the latest version returns it unchanged if the latest updaters report no change on it (the no-change fast path of `update`) |
| Scenarios.TwoUpdaterSelection | src/main/java/org/cloudburstmc/blockstateupdater/util/tagupdater/CompoundTagUpdaterContext.java:83-86 | of two updaters at increasing versions, a tag at the second one's version runs only the second, a tag at the first one's version runs both in order |
| Scenarios.TwoFieldUpdaters | src/main/java/org/cloudburstmc/blockstateupdater/util/tagupdater/CompoundTagUpdaterContext.java:80-98 | with updaters adding "x" and then "y", a tag at the second version gets "y" and not "x", one at the first version gets both |
| Scenarios.SelectiveApplication | src/main/java/org/cloudburstmc/blockstateupdater/util/tagupdater/CompoundTagUpdaterContext.java:80-98 | the same for updaters at releases 1.0.0 and 1.1.0 |

## Left out

- `CompoundTagUpdater` is not part of this model. Its builder, its step list
  and `update(Map)` are replaced by one function from a tag to the rewritten
  tag and a change flag, which the caller of `addUpdater` passes in. The
  builder the source returns, through which steps are appended after
  registration, is not modelled.
- `compareTo` of `CompoundTagUpdater` is not part of this model. The sort is
  taken to compare versions as `int`s, and `List.sort` to be stable, so only
  its outcome is modelled (`Insert`), not the sorting algorithm.
- `TagUtils.toMutable` and `toImmutable` and the NBT library types (`NbtMap`,
  `NbtMapBuilder`) are not part of this model. A tag is a map value, both
  conversions keep its content, and the in-place rewrite of the working copy
  by each updater is modelled as returning the rewritten map.
- Update: "returns the same tag" is stated as value equality; the identity of
  the returned `NbtMap` instance is not modelled.
- The registry is not thread-safe and nothing about concurrent registration
  and migration is modelled.
- MakeVersion: the packed value is stated only for release numbers in 0..255.
  For other `int`s only the clear low byte (sequence number 0, its own base)
  is proved; where the spilled bits go is computed but not stated.
- AddUpdaterWithOptions: the split of the new version into release and
  sequence number is stated only while the sequence number stays below 256.
  For the bump past 255 only the merge itself is stated.
- AddUpdaterWithReset: the same bound as `AddUpdaterWithOptions`.
- AddUpdater: the "latest version plus one" result is stated only while the
  latest sequence number is below 255.
