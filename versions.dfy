/**
 * The version codec of the tag updater context. A version is a Java `int`
 * whose four bytes hold, most significant first, the major, minor and patch
 * numbers of a release and a per-release sequence number (the source calls
 * it the "updater version"). Versions are compared as Java compares `int`s,
 * that is signed, which here is plain `<` on `Int32`.
 */
module Versions {
  import opened Bits

  type Version = Int32

  /** The sequence number of a version: `version & 0x000000FF`. */
  function UpdaterVersion(version: Version): (r: Version)
    ensures 0 <= r < 0x100
    ensures r == version % 0x100
  {
    Pow2Values();
    AndNatLowMask(Unsigned(version), 8);
    LowBitsMod(Unsigned(version), 8);
    And(version, 0xFF)
  }

  /** The release part of a version, its low byte cleared: `version & 0xFFFFFF00`. */
  function BaseVersion(version: Version): (r: Version)
    ensures r % 0x100 == 0
    ensures r <= version < r + 0x100
    ensures r == version - UpdaterVersion(version)
  {
    ClearLowByte(version);
    And(version, FromUnsigned(0xFFFF_FF00))
  }

  lemma ClearLowByte(v: Version)
    ensures And(v, FromUnsigned(0xFFFF_FF00)) == v - v % 0x100
    ensures (v - v % 0x100) % 0x100 == 0
  {
    var u := Unsigned(v);
    assert AndNat(u, 0xFFFF_FF00) == u - v % 0x100 by {
      Pow2Values();
      HighMaskValue(32, 8);
      AndNatHighMask(u, 32, 8);
      LowBitsMod(u, 8);
    }
    UnsignedRoundTrip(0xFFFF_FF00);
    var q := v / 0x100;
    assert v == 0x100 * q + v % 0x100;
    assert -0x80_0000 <= q < 0x80_0000;
    assert FromUnsigned(u - v % 0x100) == v - v % 0x100;
    ModUnique(v - v % 0x100, 0x100, q, 0);
  }

  /** A release version with a sequence number or-ed into its low byte. */
  function MergeVersions(baseVersion: Version, updaterVersion: Version): (r: Version)
    ensures baseVersion % 0x100 == 0 && 0 <= updaterVersion < 0x100 ==>
              r == baseVersion + updaterVersion
    ensures baseVersion % 0x100 == 0 && 0 <= updaterVersion < 0x100 ==>
              BaseVersion(r) == baseVersion && UpdaterVersion(r) == updaterVersion
  {
    OrIntoLowByte(baseVersion, updaterVersion);
    Or(updaterVersion, baseVersion)
  }

  lemma OrIntoLowByte(base: Version, sequence: Version)
    ensures base % 0x100 == 0 && 0 <= sequence < 0x100 ==>
              Or(sequence, base) == base + sequence && (base + sequence) % 0x100 == sequence
  {
    if base % 0x100 == 0 && 0 <= sequence < 0x100 {
      LowByteOfSum(base, sequence);
      Pow2Values();
      var u := Unsigned(base);
      LowBitsMod(u, 8);
      OrNatDisjoint(sequence, u, 8);
    }
  }

  lemma LowByteOfSum(base: int, sequence: int)
    requires base % 0x100 == 0 && 0 <= sequence < 0x100
    ensures (base + sequence) % 0x100 == sequence
  {
    ModUnique(base, 0x100, base / 0x100, 0);
    ModUnique(base + sequence, 0x100, base / 0x100, sequence);
  }

  predicate IsByte(x: int) { 0 <= x < 0x100 }

  /** `makeVersion`: the release version `major.minor.patch`, sequence
      number zero. Any `int`s are accepted; numbers outside a byte spill
      into the neighbouring bytes, but the low byte is always clear. */
  function MakeVersion(major: Int32, minor: Int32, patch: Int32): (r: Version)
    ensures UpdaterVersion(r) == 0 && BaseVersion(r) == r
    ensures IsByte(major) && IsByte(minor) && IsByte(patch) ==>
              Unsigned(r) == major * 0x100_0000 + minor * 0x1_0000 + patch * 0x100
  {
    var p, m, j := ShiftLeft(patch, 8), ShiftLeft(minor, 16), ShiftLeft(major, 24);
    ShiftClearsLowByte(patch, 8);
    ShiftClearsLowByte(minor, 16);
    ShiftClearsLowByte(major, 24);
    OrLowByteClear(p, m);
    OrLowByteClear(Or(p, m), j);
    PackBytes(major, minor, patch);
    Or(Or(p, m), j)
  }

  /** A left shift by 8, 16 or 24 bits clears the low byte. */
  lemma ShiftClearsLowByte(a: Int32, n: nat)
    requires n == 8 || n == 16 || n == 24
    ensures Unsigned(ShiftLeft(a, n)) % 0x100 == 0
  {
    Pow2Values();
    var u := Unsigned(a);
    var step := if n == 8 then 1 else if n == 16 then 0x100 else 0x1_0000;
    var x := u * Pow2(n);
    assert x == 0x100 * (u * step);
    var q := x / 0x1_0000_0000;
    var r := x % 0x1_0000_0000;
    assert r == 0x100 * (u * step - 0x100_0000 * q);
    ModUnique(r, 0x100, u * step - 0x100_0000 * q, 0);
    UnsignedRoundTrip(r);
  }

  /** The three numbers of a release are read back from its version. */
  lemma MakeVersionRoundTrip(major: int, minor: int, patch: int)
    requires IsByte(major) && IsByte(minor) && IsByte(patch)
    ensures var r := MakeVersion(major, minor, patch);
            Major(r) == major && Minor(r) == minor && Patch(r) == patch
  {
    UnpackBytes(major, minor, patch, MakeVersion(major, minor, patch));
  }

  lemma UnpackBytes(major: int, minor: int, patch: int, r: Version)
    requires 0 <= major < 0x100 && 0 <= minor < 0x100 && 0 <= patch < 0x100
    requires Unsigned(r) == major * 0x100_0000 + minor * 0x1_0000 + patch * 0x100
    ensures Major(r) == major && Minor(r) == minor && Patch(r) == patch
  {
    var u := Unsigned(r);
    ModUnique(u, 0x100_0000, major, minor * 0x1_0000 + patch * 0x100);
    ModUnique(u, 0x1_0000, major * 0x100 + minor, patch * 0x100);
    ModUnique(major * 0x100 + minor, 0x100, major, minor);
    ModUnique(u, 0x100, major * 0x1_0000 + minor * 0x100 + patch, 0);
    ModUnique(major * 0x1_0000 + minor * 0x100 + patch, 0x100, major * 0x100 + minor, patch);
  }

  lemma PackBytes(major: Int32, minor: Int32, patch: Int32)
    ensures var r := Or(Or(ShiftLeft(patch, 8), ShiftLeft(minor, 16)), ShiftLeft(major, 24));
      IsByte(major) && IsByte(minor) && IsByte(patch) ==>
        Unsigned(r) == major * 0x100_0000 + minor * 0x1_0000 + patch * 0x100
  {
    if !(IsByte(major) && IsByte(minor) && IsByte(patch)) {
      return;
    }
    Pow2Values();
    ShiftByte(patch, 8);
    ShiftByte(minor, 16);
    ShiftByte(major, 24);
    var p, m, j := ShiftLeft(patch, 8), ShiftLeft(minor, 16), ShiftLeft(major, 24);
    OrDisjoint(p, m, 16);
    OrDisjoint(Or(p, m), j, 24);
  }

  /** A byte shifted left by 8, 16 or 24 bits: its unsigned reading, whose
      low bits are clear. */
  lemma ShiftByte(b: int, k: nat)
    requires 0 <= b < 0x100 && (k == 8 || k == 16 || k == 24)
    ensures Unsigned(ShiftLeft(b, k)) == b * Pow2(k)
    ensures LowBits(b * Pow2(k), k) == 0
  {
    Pow2Values();
    var x := b * Pow2(k);
    assert x < 0x1_0000_0000 by {
      if k == 8 {
        assert x == b * 0x100;
      } else if k == 16 {
        assert x == b * 0x1_0000;
      } else {
        assert x == b * 0x100_0000;
      }
    }
    ModUnique(x, 0x1_0000_0000, 0, x);
    UnsignedRoundTrip(x);
    ModUnique(x, Pow2(k), b, 0);
    LowBitsMod(x, k);
  }

  /** The major number, the top byte of a version. */
  function Major(v: Version): int { Unsigned(v) / 0x100_0000 }

  /** The minor number, the second byte of a version. */
  function Minor(v: Version): int { (Unsigned(v) / 0x1_0000) % 0x100 }

  /** The patch number, the third byte of a version. */
  function Patch(v: Version): int { (Unsigned(v) / 0x100) % 0x100 }

  /** For majors below 128, signed `int` order on release versions is the
      lexicographic order on (major, minor, patch). */
  lemma MakeVersionOrder(major1: int, minor1: int, patch1: int, major2: int, minor2: int, patch2: int)
    requires 0 <= major1 < 0x80 && 0 <= minor1 < 0x100 && 0 <= patch1 < 0x100
    requires 0 <= major2 < 0x80 && 0 <= minor2 < 0x100 && 0 <= patch2 < 0x100
    ensures MakeVersion(major1, minor1, patch1) < MakeVersion(major2, minor2, patch2) <==>
              major1 < major2 || (major1 == major2 && (minor1 < minor2 || (minor1 == minor2 && patch1 < patch2)))
  {
    var r1, r2 := MakeVersion(major1, minor1, patch1), MakeVersion(major2, minor2, patch2);
    assert r1 == Unsigned(r1) && r2 == Unsigned(r2);
  }

  /** Among releases whose majors are both 128 or more, signed order is
      again the lexicographic order on (major, minor, patch). */
  lemma HighMajorOrder(major1: int, minor1: int, patch1: int, major2: int, minor2: int, patch2: int)
    requires 0x80 <= major1 < 0x100 && 0 <= minor1 < 0x100 && 0 <= patch1 < 0x100
    requires 0x80 <= major2 < 0x100 && 0 <= minor2 < 0x100 && 0 <= patch2 < 0x100
    ensures MakeVersion(major1, minor1, patch1) < MakeVersion(major2, minor2, patch2) <==>
              major1 < major2 || (major1 == major2 && (minor1 < minor2 || (minor1 == minor2 && patch1 < patch2)))
  {
    var r1, r2 := MakeVersion(major1, minor1, patch1), MakeVersion(major2, minor2, patch2);
    assert Unsigned(r1) >= 0x8000_0000 && Unsigned(r2) >= 0x8000_0000;
    assert r1 == Unsigned(r1) - 0x1_0000_0000 && r2 == Unsigned(r2) - 0x1_0000_0000;
  }

  /** A major of 128 or more sets the sign bit, so such a release sorts
      below every release whose major is below 128. */
  lemma HighMajorSortsFirst(major1: int, minor1: int, patch1: int, major2: int, minor2: int, patch2: int)
    requires 0x80 <= major1 < 0x100 && 0 <= minor1 < 0x100 && 0 <= patch1 < 0x100
    requires 0 <= major2 < 0x80 && 0 <= minor2 < 0x100 && 0 <= patch2 < 0x100
    ensures MakeVersion(major1, minor1, patch1) < 0 <= MakeVersion(major2, minor2, patch2)
  {
    var r1, r2 := MakeVersion(major1, minor1, patch1), MakeVersion(major2, minor2, patch2);
    assert Unsigned(r1) >= 0x8000_0000;
    assert r2 == Unsigned(r2);
  }
}
