/** The value types shared by the parser: section tags, rotation/scale axes and
    the override codes of dialogue markup. */
module Types {

  /** Unsigned 16-bit payload of the numeric override codes. */
  type U16 = n: int | 0 <= n < 0x1_0000

  /** The section a `[Header]` names. */
  datatype Section =
    | None
    | ScriptInfo
    | V4PlusStyles
    | Fonts
    | Events

  /** The axis baked into a scale or rotation tag. */
  datatype XOrYOrZ = X | Y | Z

  /** ASS/SSA override codes. Variants whose payload the source leaves empty
      (`Border()`, `Color()`, ...) carry nothing here either. */
  datatype OverrideCode =
    | Bold(bool)
    | Italic(bool)
    | Underline(bool)
    | Strikeout(bool)
    | Border
    | Shadow
    | BlurEdges(bool)
    | FontName(string)
    | FontSize(U16)
    | Scale(XOrYOrZ, U16)
    | Spacing(U16)
    | Rotation(XOrYOrZ, U16)
    | FontEncoding
    | Color
    | Alignment
    | AlignmentNumpad
    | Karaoke
    | WrappingStyle
    | Reset
}
