# surfman context declarations in Dafny

This project models `src/context.rs` of surfman, the declarations that all
platform backends share:

- `ContextID`, the identifier of a live context, and the value
  (`ContextID(0)`) that the process-wide slot behind `CREATE_CONTEXT_MUTEX`
  starts with;
- `ContextAttributeFlags`, a `bitflags` set over one byte with the four
  flags `ALPHA` (0x01), `DEPTH` (0x02), `STENCIL` (0x04) and
  `COMPATIBILITY_PROFILE` (0x08). `ALPHA`, `DEPTH` and `STENCIL` roughly
  correspond to the `alpha`, `depth` and `stencil` members of the
  `WebGLContextAttributes` dictionary of the WebGL 1.0 specification,
  section 5.2; `COMPATIBILITY_PROFILE` is surfman's own, since WebGL has no
  profile attribute. The byte is a
  `bv8`, so `|`, `&` and `!` are exactly Rust's operators on `u8`. Union,
  intersection, difference, `empty()` and `all()` come from the `bitflags`
  crate, which the source does not define. The model spells them out:
  `a | b`, `a & b`, `a & !b`, `0`, and the union of the four flags;
- `ContextAttributes`, a version and a flag set compared field by field,
  and its `zeroed()` sentinel;
- `current_context_uses_compatibility_profile`, in both its Android/OHOS
  variant and its desktop variant.

Each flag operation is proved against a set view. `Members(f)` is the set
of `Capability` values whose bits `f` has. Union, intersection and
difference are proved to be set union, intersection and difference on that
view. `FromMembers` goes back from a set to the byte. A flag set that uses
only the four declared bits is recovered from its members.

The detector does not call a driver. It reads a `DriverSnapshot` holding
what the three queries report:

- the `i32` returned for `GL_CONTEXT_PROFILE_MASK`, kept as its bit pattern;
- the code `glGetError` returns right after that query;
- the set of supported extension names.

The `cfg` choice between the two variants becomes a `Target` value.
`IsGlesOnly` is true for `target_os = "android"` or `target_env = "ohos"`,
the same as the source's `cfg(any(...))`.

Everything is in one module, `Context`, in `context.dfy`.

## Model

| member | source | states |
|---|---|---|
| `Context.ContextIDEquality` | src/context.rs:15-22 | IDs are equal exactly when their wrapped `u64` values are; the initial slot value is the ID with value 0 |
| `Context.FlagsAreDistinctSingleBits` | src/context.rs:33-45 | each declared flag is one nonzero bit among the low four, its set view is the one capability, and two different flags share no bit |
| `Context.HasIsContains` | src/context.rs:33-45 | having a flag's bit is the same as containing the whole flag, because every declared flag is a single bit |
| `Context.Members` | src/context.rs:33-45 | the set view of a flag set holds only the four capabilities, and holds each one exactly when the flag set has that capability's bit |
| `Context.All` | src/context.rs:33-46 | the union of the four flags is the byte 0x0F, and its members are all four capabilities |
| `Context.Empty` | src/context.rs:68 | the empty flag set has no members and uses no bit outside the four flags |
| `Context.Union` | src/context.rs:24-47 | the members of the union of `a` and `b` are the union of the members of `a` and `b`; the union of two sets within the four bits stays within them |
| `Context.Intersection` | src/context.rs:24-47 | the members of `a & b` are the intersection of the members; the result is within the four bits if either operand is |
| `Context.Difference` | src/context.rs:24-47 | the members of `a - b` are those of `a` that are not in `b`; the result is within the four bits if `a` is |
| `Context.Combine` | src/context.rs:33-45 | any combination of the declared flags, joined by union from the left, has exactly the combined capabilities as members and uses only the low four bits of the byte |
| `Context.FromMembers` | src/context.rs:33-46 | every set of capabilities is the set view of a flag set built from the four flags alone |
| `Context.KnownFlagsRoundTrip` | src/context.rs:33-46 | a flag set using only the four flags is rebuilt exactly by `FromMembers` from its members |
| `Context.MembersDetermineFlags` | src/context.rs:32-46 | two flag sets within the four bits are equal exactly when they have the same members |
| `Context.UnionLaws` | src/context.rs:24-47 | union is commutative and associative, and the empty set is its identity on both sides |
| `Context.IntersectionLaws` | src/context.rs:24-47 | intersection is commutative, and intersecting the union of `A` and `B` with `B` gives `B` |
| `Context.DifferenceLaws` | src/context.rs:24-47 | `A - A` is empty, `A - empty` is `A`, and the union of `A - B` and `A & B` is `A` |
| `Context.Zeroed` | src/context.rs:63-71 | the sentinel has version 0.0 and a flag set with no members |
| `Context.AttributesEquality` | src/context.rs:52-61 | attributes are equal exactly when versions and flag bytes are; any attributes with a nonzero major or minor version differ from the sentinel |
| `Context.IsGlesOnly` | src/context.rs:73-78 | a target counts as OpenGL ES only exactly when its `target_os` is `android` or its `target_env` is `ohos` |
| `Context.EmbeddedUsesCompatibilityProfile` | src/context.rs:73-76 | the Android/OHOS variant answers false for every driver state |
| `Context.DesktopUsesCompatibilityProfile` | src/context.rs:78-95 | the desktop variant answers true when the mask query reports `NO_ERROR` and has bit 0x2; otherwise it answers whether `GL_ARB_compatibility` is supported |
| `Context.CurrentContextUsesCompatibilityProfile` | src/context.rs:73-95 | false on Android/OHOS; on other targets true when the mask query reports `NO_ERROR` with bit 0x2, otherwise exactly when `GL_ARB_compatibility` is supported |
| `Context.GlesOnlyNeverCompatibility` | src/context.rs:73-76 | on Android or OHOS the detector answers false for every driver state |
| `Context.MaskConfirmationWins` | src/context.rs:84-90 | on desktop, a mask query with no error and the compatibility bit set gives true, whatever the extension set is |
| `Context.FallbackDecides` | src/context.rs:84-93 | on desktop, whenever the mask query errored or lacks the compatibility bit, the answer equals whether `GL_ARB_compatibility` is supported |
| `Context.ErroredQueryIgnoresMask` | src/context.rs:85-93 | after an errored mask query the mask value does not change the answer, and on desktop the extension alone decides |
| `Context.MaskWithNeitherBit` | src/context.rs:85-93 | a successful mask with neither the core nor the compatibility bit counts as not compatibility; only the extension decides |
| `Context.ExtensionsOnlyAdd` | src/context.rs:92-93 | supporting more extensions never turns true into false, and on desktop supporting `GL_ARB_compatibility` makes the answer true |
| `Context.TrueIsConfirmed` | src/context.rs:73-94 | the answer is true exactly on a desktop target where one of the two tiers confirms compatibility |

## Left out

- The `Mutex` around the ID slot (src/context.rs:22) is left out. It only serves cross-thread exclusion. The code that allocates and increments IDs is in backend files that are not part of this model, so counter uniqueness is not modelled.
- The driver calls `get_parameter_i32`, `get_error` and `supported_extensions` are foreign calls. They are replaced by the values they return, held in `DriverSnapshot`. The model does not track that `get_error` clears the driver's error flag.
- `GLVersion` comes from `src/info.rs`, which is not part of this model. It is a pair of naturals here, and no `u8` bound or ordering is assumed.
- The values of `GL_NO_ERROR` (0), `GL_CONTEXT_CORE_PROFILE_BIT` (0x1) and `GL_CONTEXT_COMPATIBILITY_PROFILE_BIT` (0x2) come from the OpenGL 3.2 specification. The generated `gl` bindings that define them are not part of this model.
- Derived `Debug` and `Hash`, and the `cfg` mechanism itself, are left out. The platform is an input value.
- The `bitflags` operations the source does not use (`insert`, `remove`, `toggle`, complement, symmetric difference, `from_bits*`) are not modelled.
