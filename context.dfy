/**
 * Declarations common to all platform contexts of surfman (src/context.rs):
 * the context identifier, the capability flag set, the attribute record with
 * its zeroed sentinel, and the detector that decides whether the currently
 * bound OpenGL context runs the compatibility profile.
 *
 * The driver is not called: the detector reads an abstract snapshot of what
 * the three driver queries report, and the compile-time platform selection
 * becomes a target value passed in.
 */
module Context {

  // ---------------------------------------------------------------------------
  // Machine integer widths used by the source
  // ---------------------------------------------------------------------------

  /** Rust's `u64`. */
  newtype u64 = x: int | 0 <= x < 0x1_0000_0000_0000_0000

  /** A `GLenum` (`u32`), as returned by `glGetError`. */
  newtype GLenum = x: int | 0 <= x < 0x1_0000_0000

  // ---------------------------------------------------------------------------
  // ContextID
  // ---------------------------------------------------------------------------

  /**
   * A unique ID among all currently allocated contexts. A destroyed
   * context's ID may be handed out again later.
   */
  datatype ContextID = ContextID(value: u64)

  /** What the process-wide ID slot guarded by `CREATE_CONTEXT_MUTEX` holds at start. */
  const INITIAL_CONTEXT_ID: ContextID := ContextID(0)

  /** Two IDs are equal exactly when the wrapped values are (derived `PartialEq`). */
  lemma ContextIDEquality(a: ContextID, b: ContextID)
    ensures a == b <==> a.value == b.value
    ensures a == INITIAL_CONTEXT_ID <==> a.value == 0
  {
  }

  // ---------------------------------------------------------------------------
  // ContextAttributeFlags
  // ---------------------------------------------------------------------------

  /** The four capabilities one bit of a flag set can stand for. */
  datatype Capability = Alpha | Depth | Stencil | CompatibilityProfile

  const ALL_CAPABILITIES: set<Capability> := {Alpha, Depth, Stencil, CompatibilityProfile}

  /**
   * A `bitflags` set over a `u8`. The byte is held as a `bv8`, whose `|`,
   * `&` and `!` are Rust's bitwise operators on `u8`.
   */
  datatype ContextAttributeFlags = ContextAttributeFlags(bits: bv8)

  /** Surfaces get an alpha channel (RGBA/BGRA rather than RGBX/BGRX). */
  const ALPHA: ContextAttributeFlags := ContextAttributeFlags(0x01)
  /** Surfaces get a 24-bit depth buffer. */
  const DEPTH: ContextAttributeFlags := ContextAttributeFlags(0x02)
  /** Surfaces get an 8-bit stencil buffer. */
  const STENCIL: ContextAttributeFlags := ContextAttributeFlags(0x04)
  /** The compatibility profile is used; without it, the core profile. */
  const COMPATIBILITY_PROFILE: ContextAttributeFlags := ContextAttributeFlags(0x08)

  /** The declared flag that stands for capability `c`. */
  function Flag(c: Capability): (f: ContextAttributeFlags) {
    match c
    case Alpha => ALPHA
    case Depth => DEPTH
    case Stencil => STENCIL
    case CompatibilityProfile => COMPATIBILITY_PROFILE
  }

  /** Whether `f` has the bit of capability `c` set. */
  predicate Has(f: ContextAttributeFlags, c: Capability) {
    f.bits & Flag(c).bits != 0
  }

  /**
   * Since each flag is a single bit, having its bit is `bitflags`'
   * `contains` of that flag: all of the flag's bits are set in `f`.
   */
  lemma HasIsContains(f: ContextAttributeFlags, c: Capability)
    ensures Has(f, c) <==> f.bits & Flag(c).bits == Flag(c).bits
  {
  }

  /** The set view of a flag set: the capabilities whose bits it has. */
  function Members(f: ContextAttributeFlags): (s: set<Capability>)
    ensures s <= ALL_CAPABILITIES
    ensures Alpha in s <==> Has(f, Alpha)
    ensures Depth in s <==> Has(f, Depth)
    ensures Stencil in s <==> Has(f, Stencil)
    ensures CompatibilityProfile in s <==> Has(f, CompatibilityProfile)
  {
    set c | c in ALL_CAPABILITIES && Has(f, c)
  }

  /** `bitflags`' `all()`: the union of the four declared flags. */
  function All(): (a: ContextAttributeFlags)
    ensures a.bits == 0x0F
    ensures Members(a) == ALL_CAPABILITIES
  {
    ContextAttributeFlags(ALPHA.bits | DEPTH.bits | STENCIL.bits | COMPATIBILITY_PROFILE.bits)
  }

  /** A flag set that uses no bit outside the declared flags. */
  predicate KnownBitsOnly(f: ContextAttributeFlags) {
    f.bits & !All().bits == 0
  }

  /** The declared flags are four distinct single bits among the low four of the byte. */
  lemma FlagsAreDistinctSingleBits(c: Capability, d: Capability)
    ensures Flag(c).bits != 0 && Flag(c).bits & (Flag(c).bits - 1) == 0
    ensures KnownBitsOnly(Flag(c))
    ensures Members(Flag(c)) == {c}
    ensures c != d ==> Flag(c).bits & Flag(d).bits == 0
  {
    assert Members(Flag(c)) == {c} by {
      forall e | e in ALL_CAPABILITIES
        ensures Has(Flag(c), e) <==> e == c
      {
      }
    }
  }

  /** `bitflags`' `empty()`: no bit set. */
  function Empty(): (e: ContextAttributeFlags)
    ensures Members(e) == {}
    ensures KnownBitsOnly(e)
  {
    ContextAttributeFlags(0)
  }

  /** Every value of `Capability` is one of the four declared capabilities. */
  lemma CapabilitiesAreAll(c: Capability)
    ensures c in ALL_CAPABILITIES
  {
    match c
    case Alpha =>
    case Depth =>
    case Stencil =>
    case CompatibilityProfile =>
  }

  /** Two sets of capabilities that agree on each of the four are equal. */
  lemma SameMembers(s: set<Capability>, t: set<Capability>)
    requires Alpha in s <==> Alpha in t
    requires Depth in s <==> Depth in t
    requires Stencil in s <==> Stencil in t
    requires CompatibilityProfile in s <==> CompatibilityProfile in t
    ensures s == t
  {
    forall c ensures c in s <==> c in t {
      CapabilitiesAreAll(c);
    }
  }

  /** How the bit of capability `c` fares under or, and, and and-not. */
  lemma BitwiseAt(x: bv8, y: bv8, c: Capability)
    ensures (x | y) & Flag(c).bits != 0 <==> x & Flag(c).bits != 0 || y & Flag(c).bits != 0
    ensures (x & y) & Flag(c).bits != 0 <==> x & Flag(c).bits != 0 && y & Flag(c).bits != 0
    ensures (x & !y) & Flag(c).bits != 0 <==> x & Flag(c).bits != 0 && y & Flag(c).bits == 0
  {
  }

  /** `bitflags`' union (`|`): bitwise or. */
  function Union(a: ContextAttributeFlags, b: ContextAttributeFlags): (r: ContextAttributeFlags)
    ensures Members(r) == Members(a) + Members(b)
    ensures KnownBitsOnly(a) && KnownBitsOnly(b) ==> KnownBitsOnly(r)
  {
    var r := ContextAttributeFlags(a.bits | b.bits);
    BitwiseAt(a.bits, b.bits, Alpha);
    BitwiseAt(a.bits, b.bits, Depth);
    BitwiseAt(a.bits, b.bits, Stencil);
    BitwiseAt(a.bits, b.bits, CompatibilityProfile);
    SameMembers(Members(r), Members(a) + Members(b));
    r
  }

  /** `bitflags`' intersection (`&`): bitwise and. */
  function Intersection(a: ContextAttributeFlags, b: ContextAttributeFlags): (r: ContextAttributeFlags)
    ensures Members(r) == Members(a) * Members(b)
    ensures KnownBitsOnly(a) || KnownBitsOnly(b) ==> KnownBitsOnly(r)
  {
    var r := ContextAttributeFlags(a.bits & b.bits);
    BitwiseAt(a.bits, b.bits, Alpha);
    BitwiseAt(a.bits, b.bits, Depth);
    BitwiseAt(a.bits, b.bits, Stencil);
    BitwiseAt(a.bits, b.bits, CompatibilityProfile);
    SameMembers(Members(r), Members(a) * Members(b));
    r
  }

  /** `bitflags`' difference (`-`): the bits of `a` that `b` does not have. */
  function Difference(a: ContextAttributeFlags, b: ContextAttributeFlags): (r: ContextAttributeFlags)
    ensures Members(r) == Members(a) - Members(b)
    ensures KnownBitsOnly(a) ==> KnownBitsOnly(r)
  {
    var r := ContextAttributeFlags(a.bits & !b.bits);
    BitwiseAt(a.bits, b.bits, Alpha);
    BitwiseAt(a.bits, b.bits, Depth);
    BitwiseAt(a.bits, b.bits, Stencil);
    BitwiseAt(a.bits, b.bits, CompatibilityProfile);
    SameMembers(Members(r), Members(a) - Members(b));
    r
  }

  /** The flag of `c` when `c` is in `s`, otherwise no flag. */
  function Piece(s: set<Capability>, c: Capability): (f: ContextAttributeFlags)
    ensures Members(f) == s * {c}
    ensures KnownBitsOnly(f)
  {
    FlagsAreDistinctSingleBits(c, c);
    if c in s then Flag(c) else Empty()
  }

  /**
   * A combination of declared flags, `Flag(cs[0]) | ... | Flag(cs[n-1])`,
   * built as Rust evaluates a chain of `|`, from the left. Whatever the
   * flags combined, the result has exactly them as members and stays in the
   * low four bits.
   */
  function Combine(cs: seq<Capability>): (f: ContextAttributeFlags)
    ensures Members(f) == set c | c in cs
    ensures KnownBitsOnly(f)
  {
    if cs == [] then Empty()
    else
      var init, last := cs[..|cs| - 1], cs[|cs| - 1];
      FlagsAreDistinctSingleBits(last, last);
      var f := Union(Combine(init), Flag(last));
      assert (set c | c in cs) == (set c | c in init) + {last} by {
        assert cs == init + [last];
      }
      f
  }

  /** The flag set whose members are exactly `s`. */
  function FromMembers(s: set<Capability>): (f: ContextAttributeFlags)
    ensures Members(f) == s
    ensures KnownBitsOnly(f)
  {
    var f := Union(Union(Piece(s, Alpha), Piece(s, Depth)),
                   Union(Piece(s, Stencil), Piece(s, CompatibilityProfile)));
    assert Members(f) == s by {
      forall c ensures c in Members(f) <==> c in s {
        CapabilitiesAreAll(c);
      }
    }
    f
  }

  /**
   * On flag sets that use only the declared bits, the set view loses
   * nothing: two such flag sets are equal exactly when they have the same
   * members.
   */
  lemma MembersDetermineFlags(f: ContextAttributeFlags, g: ContextAttributeFlags)
    requires KnownBitsOnly(f) && KnownBitsOnly(g)
    ensures f == g <==> Members(f) == Members(g)
  {
  }

  /** A flag set using only the declared bits is rebuilt from its members. */
  lemma KnownFlagsRoundTrip(f: ContextAttributeFlags)
    requires KnownBitsOnly(f)
    ensures FromMembers(Members(f)) == f
  {
  }

  /** Union is commutative and associative, with `Empty()` as its identity. */
  lemma UnionLaws(a: ContextAttributeFlags, b: ContextAttributeFlags, c: ContextAttributeFlags)
    ensures Union(a, b) == Union(b, a)
    ensures Union(Union(a, b), c) == Union(a, Union(b, c))
    ensures Union(Empty(), a) == a && Union(a, Empty()) == a
  {
  }

  /** Intersection is commutative and absorbs a union with one of its operands. */
  lemma IntersectionLaws(a: ContextAttributeFlags, b: ContextAttributeFlags)
    ensures Intersection(a, b) == Intersection(b, a)
    ensures Intersection(Union(a, b), b) == b
  {
  }

  /**
   * A flag set minus itself is empty, minus nothing is itself, and the
   * difference and intersection with another set split it in two.
   */
  lemma DifferenceLaws(a: ContextAttributeFlags, b: ContextAttributeFlags)
    ensures Difference(a, a) == Empty()
    ensures Difference(a, Empty()) == a
    ensures Union(Difference(a, b), Intersection(a, b)) == a
  {
    assert a.bits & !a.bits == 0;
    assert a.bits & !0 == a.bits;
    assert (a.bits & !b.bits) | (a.bits & b.bits) == a.bits;
  }

  // ---------------------------------------------------------------------------
  // ContextAttributes
  // ---------------------------------------------------------------------------

  /** An OpenGL or OpenGL ES version; no behaviour beyond the pair is assumed. */
  datatype GLVersion = GLVersion(major: nat, minor: nat)

  /** The version a context supports and its flags; compared field by field. */
  datatype ContextAttributes = ContextAttributes(version: GLVersion, flags: ContextAttributeFlags)

  /** The sentinel for attributes not yet known: version 0.0 and no flag. */
  function Zeroed(): (z: ContextAttributes)
    ensures z.version.major == 0 && z.version.minor == 0
    ensures Members(z.flags) == {} && KnownBitsOnly(z.flags)
  {
    ContextAttributes(GLVersion(0, 0), Empty())
  }

  /**
   * Attributes are equal exactly when versions and flag bytes are, so the
   * sentinel differs from every attributes value with a nonzero version.
   */
  lemma AttributesEquality(a: ContextAttributes, b: ContextAttributes)
    ensures a == b <==> a.version == b.version && a.flags.bits == b.flags.bits
    ensures a.version.major != 0 || a.version.minor != 0 ==> a != Zeroed()
  {
  }

  // ---------------------------------------------------------------------------
  // Compatibility-profile detector
  // ---------------------------------------------------------------------------

  /** The compile target: only `target_os` and `target_env` matter here. */
  datatype Target = Target(os: string, env: string)

  /** The Android and OpenHarmony targets, which only have OpenGL ES. */
  function IsGlesOnly(t: Target): (r: bool)
    ensures t.os == "android" ==> r
    ensures t.env == "ohos" ==> r
    ensures r ==> t.os == "android" || t.env == "ohos"
  {
    t.os == "android" || t.env == "ohos"
  }

  /** `GL_NO_ERROR`. */
  const NO_ERROR: GLenum := 0
  /** `GL_CONTEXT_CORE_PROFILE_BIT`. */
  const CONTEXT_CORE_PROFILE_BIT: bv32 := 0x0000_0001
  /** `GL_CONTEXT_COMPATIBILITY_PROFILE_BIT`. */
  const CONTEXT_COMPATIBILITY_PROFILE_BIT: bv32 := 0x0000_0002
  /** The extension whose presence signals the compatibility profile. */
  const ARB_COMPATIBILITY: string := "GL_ARB_compatibility"

  /**
   * What the bound context's driver reports to the three queries the
   * detector makes: the `i32` returned for `GL_CONTEXT_PROFILE_MASK` (held
   * as its two's-complement bit pattern), the code `glGetError` then
   * returns, and the set of supported extension names.
   */
  datatype DriverSnapshot = DriverSnapshot(profileMask: bv32, error: GLenum, extensions: set<string>)

  /** First tier: the mask query succeeded and has the compatibility bit. */
  predicate ProfileMaskConfirms(d: DriverSnapshot) {
    d.error == NO_ERROR && d.profileMask & CONTEXT_COMPATIBILITY_PROFILE_BIT != 0
  }

  /** The Android/OHOS variant: no profile concept, never compatibility. */
  function EmbeddedUsesCompatibilityProfile(d: DriverSnapshot): (r: bool)
    ensures !r
  {
    false
  }

  /** The desktop variant: the profile mask first, then the extension. */
  function DesktopUsesCompatibilityProfile(d: DriverSnapshot): (r: bool)
    ensures ProfileMaskConfirms(d) ==> r
    ensures !ProfileMaskConfirms(d) ==> (r <==> ARB_COMPATIBILITY in d.extensions)
  {
    if ProfileMaskConfirms(d) then true
    else ARB_COMPATIBILITY in d.extensions
  }

  /** `current_context_uses_compatibility_profile`, with the variant chosen by target. */
  function CurrentContextUsesCompatibilityProfile(t: Target, d: DriverSnapshot): (r: bool)
    ensures IsGlesOnly(t) ==> !r
    ensures !IsGlesOnly(t) && ProfileMaskConfirms(d) ==> r
    ensures !IsGlesOnly(t) && !ProfileMaskConfirms(d) ==> (r <==> ARB_COMPATIBILITY in d.extensions)
  {
    if IsGlesOnly(t) then EmbeddedUsesCompatibilityProfile(d)
    else DesktopUsesCompatibilityProfile(d)
  }

  /** On Android and OHOS the answer is false whatever the driver reports. */
  lemma GlesOnlyNeverCompatibility(t: Target, d: DriverSnapshot)
    requires IsGlesOnly(t)
    ensures !CurrentContextUsesCompatibilityProfile(t, d)
  {
  }

  /**
   * On desktop, a successful mask query with the compatibility bit yields
   * true, and the extension set does not matter.
   */
  lemma MaskConfirmationWins(t: Target, d: DriverSnapshot, extensions: set<string>)
    requires !IsGlesOnly(t)
    requires d.error == NO_ERROR && d.profileMask & CONTEXT_COMPATIBILITY_PROFILE_BIT != 0
    ensures CurrentContextUsesCompatibilityProfile(t, d)
    ensures CurrentContextUsesCompatibilityProfile(t, d.(extensions := extensions))
  {
  }

  /**
   * On desktop, whenever the first tier does not confirm, the answer is
   * exactly whether the extension is supported.
   */
  lemma FallbackDecides(t: Target, d: DriverSnapshot)
    requires !IsGlesOnly(t)
    requires d.error != NO_ERROR || d.profileMask & CONTEXT_COMPATIBILITY_PROFILE_BIT == 0
    ensures CurrentContextUsesCompatibilityProfile(t, d) <==> ARB_COMPATIBILITY in d.extensions
  {
  }

  /** After an errored mask query the mask value is ignored. */
  lemma ErroredQueryIgnoresMask(t: Target, d: DriverSnapshot, mask: bv32)
    requires d.error != NO_ERROR
    ensures CurrentContextUsesCompatibilityProfile(t, d.(profileMask := mask))
        <==> CurrentContextUsesCompatibilityProfile(t, d)
    ensures !IsGlesOnly(t) ==>
              (CurrentContextUsesCompatibilityProfile(t, d) <==> ARB_COMPATIBILITY in d.extensions)
  {
  }

  /**
   * A mask that reports neither the core nor the compatibility bit is
   * treated like a core-profile mask: only the extension decides.
   */
  lemma MaskWithNeitherBit(t: Target, d: DriverSnapshot)
    requires !IsGlesOnly(t) && d.error == NO_ERROR
    requires d.profileMask & (CONTEXT_CORE_PROFILE_BIT | CONTEXT_COMPATIBILITY_PROFILE_BIT) == 0
    ensures CurrentContextUsesCompatibilityProfile(t, d) <==> ARB_COMPATIBILITY in d.extensions
  {
  }

  /**
   * Supporting more extensions can only turn false into true, and on
   * desktop adding `GL_ARB_compatibility` makes the answer true.
   */
  lemma ExtensionsOnlyAdd(t: Target, d: DriverSnapshot, more: set<string>)
    ensures CurrentContextUsesCompatibilityProfile(t, d) ==>
              CurrentContextUsesCompatibilityProfile(t, d.(extensions := d.extensions + more))
    ensures !IsGlesOnly(t) ==>
              CurrentContextUsesCompatibilityProfile(t, d.(extensions := d.extensions + {ARB_COMPATIBILITY}))
  {
  }

  /**
   * The detector is conservative: a true answer is always backed by one of
   * the two tiers on a desktop target.
   */
  lemma TrueIsConfirmed(t: Target, d: DriverSnapshot)
    ensures CurrentContextUsesCompatibilityProfile(t, d) <==>
              !IsGlesOnly(t) && (ProfileMaskConfirms(d) || ARB_COMPATIBILITY in d.extensions)
  {
  }
}
