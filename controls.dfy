/** The settings the engine reads: the length slider, the four class
    check boxes, their initial values, and the profile presets that set
    them. */
module Controls {
  import opened Wrappers
  import opened Charset

  /** The slider's range. */
  const MIN_LENGTH: nat := 4
  const MAX_LENGTH: nat := 64

  /** The initial slider value and checked boxes. */
  const DEFAULT_LENGTH: nat := 12
  const DEFAULT_CLASSES: set<CharClass> := {Lower, Digit}

  predicate InRange(length: int)
  {
    MIN_LENGTH <= length <= MAX_LENGTH
  }

  /** A slider ignores values outside its range by clamping them. */
  function Clamp(v: int): (r: int)
    ensures InRange(r)
    ensures InRange(v) ==> r == v
    ensures v < MIN_LENGTH ==> r == MIN_LENGTH
    ensures v > MAX_LENGTH ==> r == MAX_LENGTH
  {
    if v < MIN_LENGTH then MIN_LENGTH else if v > MAX_LENGTH then MAX_LENGTH else v
  }

  /** The entries of the profile box, by tag rather than by translated label. */
  datatype Profile = Custom | Simple | Secure | UltraSecure

  datatype Preset = Preset(length: int, classes: set<CharClass>)

  /** What selecting a profile sets; None for the custom entry, which leaves
      the settings as they are. */
  function PresetOf(p: Profile): (r: Option<Preset>)
    ensures r.None? <==> p == Custom
    ensures r.Some? ==> InRange(r.value.length) && r.value.classes != {}
  {
    match p
    case Custom => None
    case Simple => Some(Preset(8, {Lower, Digit}))
    case Secure => Some(Preset(14, {Lower, Upper, Digit, Symbol}))
    case UltraSecure => Some(Preset(24, {Lower, Upper, Digit, Symbol}))
  }
}
