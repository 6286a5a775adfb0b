/** `AnsiColors` (Celesium/Logging/AnsiColors.cs): terminal colour escape
    sequences. The sixteen basic colours are SGR sequences (Select Graphic
    Rendition, section 8.3.117 of ECMA-48); the others use the 256-colour
    `38;5;n` / `48;5;n` extension. */
module AnsiColors {
  import opened Wrappers
  import opened Text

  /** The escape character `\e`. */
  const Esc: char := '\U{1B}'

  /** `ForeColor(code)`: 256-colour foreground. */
  function ForeColor(code: nat): string
  {
    [Esc] + "[38;5;" + NatToString(code) + "m"
  }

  /** `BackColor(code)`: 256-colour background. */
  function BackColor(code: nat): string
  {
    [Esc] + "[48;5;" + NatToString(code) + "m"
  }

  const Reset: string := "\U{1B}[0m"
  const Bold: string := "\U{1B}[1m"
  const Black: string := "\U{1B}[30m"
  const BlackBackground: string := "\U{1B}[40m"
  const Red: string := "\U{1B}[31m"
  const RedBackground: string := "\U{1B}[41m"
  const Green: string := "\U{1B}[32m"
  const GreenBackground: string := "\U{1B}[42m"
  const Yellow: string := "\U{1B}[33m"
  const YellowBackground: string := "\U{1B}[43m"
  const Blue: string := "\U{1B}[34m"
  const BlueBackground: string := "\U{1B}[44m"
  const Purple: string := "\U{1B}[35m"
  const PurpleBackground: string := "\U{1B}[45m"
  const Cyan: string := "\U{1B}[36m"
  const CyanBackground: string := "\U{1B}[46m"
  const White: string := "\U{1B}[37m"
  const WhiteBackground: string := "\U{1B}[47m"
  const BrightBlack: string := "\U{1B}[90m"
  const BrightBlackBackground: string := "\U{1B}[100m"
  const BrightRed: string := "\U{1B}[91m"
  const BrightRedBackground: string := "\U{1B}[101m"
  const BrightGreen: string := "\U{1B}[92m"
  const BrightGreenBackground: string := "\U{1B}[102m"
  const BrightYellow: string := "\U{1B}[93m"
  const BrightYellowBackground: string := "\U{1B}[103m"
  const BrightBlue: string := "\U{1B}[94m"
  const BrightBlueBackground: string := "\U{1B}[104m"
  const BrightPurple: string := "\U{1B}[95m"
  const BrightPurpleBackground: string := "\U{1B}[105m"
  const BrightCyan: string := "\U{1B}[96m"
  const BrightCyanBackground: string := "\U{1B}[106m"
  const BrightWhite: string := "\U{1B}[97m"
  const BrightWhiteBackground: string := "\U{1B}[107m"
  const Gray: string := ForeColor(244)
  const GrayBackground: string := BackColor(244)
  const Orange: string := ForeColor(202)
  const OrangeBackground: string := BackColor(202)
  const Pink: string := ForeColor(200)
  const PinkBackground: string := BackColor(200)
  const CutePink: string := ForeColor(205)
  const CutePinkBackground: string := BackColor(205)
  const Aqua: string := ForeColor(45)
  const AquaBackground: string := BackColor(45)
  const Gold: string := ForeColor(220)
  const GoldBackground: string := BackColor(220)
  const LightGreen: string := ForeColor(82)
  const LightGreenBackground: string := BackColor(82)
  const LightBlue: string := ForeColor(39)
  const LightBlueBackground: string := BackColor(39)
  const Magenta: string := ForeColor(13)
  const MagentaBackground: string := BackColor(13)
  const LightCyan: string := ForeColor(51)
  const LightCyanBackground: string := BackColor(51)
  const LightGray: string := ForeColor(247)
  const LightGrayBackground: string := BackColor(247)
  const DarkRed: string := ForeColor(88)
  const DarkRedBackground: string := BackColor(88)
  const DarkGreen: string := ForeColor(22)
  const DarkGreenBackground: string := BackColor(22)
  const DarkBlue: string := ForeColor(19)
  const DarkBlueBackground: string := BackColor(19)
  const DarkYellow: string := ForeColor(136)
  const DarkYellowBackground: string := BackColor(136)
  const DarkPurple: string := ForeColor(55)
  const DarkPurpleBackground: string := BackColor(55)

  /** The `Names` enumeration, in declaration order. */
  datatype Names =
      Black
    | Red
    | Green
    | Yellow
    | Blue
    | Purple
    | Cyan
    | White
    | BrightBlack
    | BrightRed
    | BrightGreen
    | BrightYellow
    | BrightBlue
    | BrightPurple
    | BrightCyan
    | BrightWhite
    | Gray
    | Orange
    | Pink
    | CutePink
    | Aqua
    | Gold
    | LightGreen
    | LightBlue
    | Magenta
    | LightCyan
    | LightGray
    | DarkRed
    | DarkGreen
    | DarkBlue
    | DarkYellow
    | DarkPurple

  /** The declared names indexed by their underlying enum values 0..31. */
  const AllNames: seq<Names> := [Names.Black, Names.Red, Names.Green, Names.Yellow, Names.Blue, Names.Purple, Names.Cyan, Names.White, Names.BrightBlack, Names.BrightRed, Names.BrightGreen, Names.BrightYellow, Names.BrightBlue, Names.BrightPurple, Names.BrightCyan, Names.BrightWhite, Names.Gray, Names.Orange, Names.Pink, Names.CutePink, Names.Aqua, Names.Gold, Names.LightGreen, Names.LightBlue, Names.Magenta, Names.LightCyan, Names.LightGray, Names.DarkRed, Names.DarkGreen, Names.DarkBlue, Names.DarkYellow, Names.DarkPurple
  ]

  /** The underlying value of a name. */
  function Ordinal(name: Names): (v: nat)
    ensures v < |AllNames| && AllNames[v] == name
  {
    match name
    case Black => 0
    case Red => 1
    case Green => 2
    case Yellow => 3
    case Blue => 4
    case Purple => 5
    case Cyan => 6
    case White => 7
    case BrightBlack => 8
    case BrightRed => 9
    case BrightGreen => 10
    case BrightYellow => 11
    case BrightBlue => 12
    case BrightPurple => 13
    case BrightCyan => 14
    case BrightWhite => 15
    case Gray => 16
    case Orange => 17
    case Pink => 18
    case CutePink => 19
    case Aqua => 20
    case Gold => 21
    case LightGreen => 22
    case LightBlue => 23
    case Magenta => 24
    case LightCyan => 25
    case LightGray => 26
    case DarkRed => 27
    case DarkGreen => 28
    case DarkBlue => 29
    case DarkYellow => 30
    case DarkPurple => 31
  }

  /** Casting an int to `Names`: a declared name only for 0..31. */
  function FromOrdinal(value: int): (name: Option<Names>)
    ensures name.Some? <==> 0 <= value < |AllNames|
    ensures forall n :: Ordinal(n) == value ==> name == Some(n)
  {
    if 0 <= value < |AllNames| then Some(AllNames[value]) else None
  }

  /** The property that `GetColor` returns for each declared name. */
  function ColorOf(name: Names): string
  {
    match name
    case Black => Black
    case Red => Red
    case Green => Green
    case Yellow => Yellow
    case Blue => Blue
    case Purple => Purple
    case Cyan => Cyan
    case White => White
    case BrightBlack => BrightBlack
    case BrightRed => BrightRed
    case BrightGreen => BrightGreen
    case BrightYellow => BrightYellow
    case BrightBlue => BrightBlue
    case BrightPurple => BrightPurple
    case BrightCyan => BrightCyan
    case BrightWhite => BrightWhite
    case Gray => Gray
    case Orange => Orange
    case Pink => Pink
    case CutePink => CutePink
    case Aqua => Aqua
    case Gold => Gold
    case LightGreen => LightGreen
    case LightBlue => LightBlue
    case Magenta => Magenta
    case LightCyan => LightCyan
    case LightGray => LightGray
    case DarkRed => DarkRed
    case DarkGreen => DarkGreen
    case DarkBlue => DarkBlue
    case DarkYellow => DarkYellow
    case DarkPurple => DarkPurple
  }

  /** The property that `GetBackgroundColor` returns for each declared name. */
  function BackgroundColorOf(name: Names): string
  {
    match name
    case Black => BlackBackground
    case Red => RedBackground
    case Green => GreenBackground
    case Yellow => YellowBackground
    case Blue => BlueBackground
    case Purple => PurpleBackground
    case Cyan => CyanBackground
    case White => WhiteBackground
    case BrightBlack => BrightBlackBackground
    case BrightRed => BrightRedBackground
    case BrightGreen => BrightGreenBackground
    case BrightYellow => BrightYellowBackground
    case BrightBlue => BrightBlueBackground
    case BrightPurple => BrightPurpleBackground
    case BrightCyan => BrightCyanBackground
    case BrightWhite => BrightWhiteBackground
    case Gray => GrayBackground
    case Orange => OrangeBackground
    case Pink => PinkBackground
    case CutePink => CutePinkBackground
    case Aqua => AquaBackground
    case Gold => GoldBackground
    case LightGreen => LightGreenBackground
    case LightBlue => LightBlueBackground
    case Magenta => MagentaBackground
    case LightCyan => LightCyanBackground
    case LightGray => LightGrayBackground
    case DarkRed => DarkRedBackground
    case DarkGreen => DarkGreenBackground
    case DarkBlue => DarkBlueBackground
    case DarkYellow => DarkYellowBackground
    case DarkPurple => DarkPurpleBackground
  }

  /** `GetColor(color)` on the enum's underlying value: the colour of a
      declared name, `ArgumentOutOfRangeException` for any other value. */
  function GetColor(color: int): (r: Result<string>)
    ensures r.Success? <==> 0 <= color < |AllNames|
    ensures forall n :: Ordinal(n) == color ==> r == Success(ColorOf(n))
    ensures r.Failure? ==> r.error == ArgumentOutOfRange
  {
    match FromOrdinal(color)
    case Some(name) => Success(ColorOf(name))
    case None => Failure(ArgumentOutOfRange)
  }

  /** `GetBackgroundColor(color)`: as `GetColor`, for backgrounds. */
  function GetBackgroundColor(color: int): (r: Result<string>)
    ensures r.Success? <==> 0 <= color < |AllNames|
    ensures forall n :: Ordinal(n) == color ==> r == Success(BackgroundColorOf(n))
    ensures r.Failure? ==> r.error == ArgumentOutOfRange
  {
    match FromOrdinal(color)
    case Some(name) => Success(BackgroundColorOf(name))
    case None => Failure(ArgumentOutOfRange)
  }

  /** An SGR control sequence with one numeric parameter. */
  function Sgr(parameter: nat): string
  {
    [Esc] + "[" + NatToString(parameter) + "m"
  }

  /** The SGR foreground parameter of the sixteen basic colours: 30-37 for
      the normal and 90-97 for the bright ones; none for the others. */
  function BasicCode(name: Names): Option<nat>
  {
    match name
    case Black => Some(30)
    case Red => Some(31)
    case Green => Some(32)
    case Yellow => Some(33)
    case Blue => Some(34)
    case Purple => Some(35)
    case Cyan => Some(36)
    case White => Some(37)
    case BrightBlack => Some(90)
    case BrightRed => Some(91)
    case BrightGreen => Some(92)
    case BrightYellow => Some(93)
    case BrightBlue => Some(94)
    case BrightPurple => Some(95)
    case BrightCyan => Some(96)
    case BrightWhite => Some(97)
    case _ => None
  }

  /** The 256-colour palette index of the other sixteen colours. */
  function PaletteIndex(name: Names): Option<nat>
  {
    match name
    case Gray => Some(244)
    case Orange => Some(202)
    case Pink => Some(200)
    case CutePink => Some(205)
    case Aqua => Some(45)
    case Gold => Some(220)
    case LightGreen => Some(82)
    case LightBlue => Some(39)
    case Magenta => Some(13)
    case LightCyan => Some(51)
    case LightGray => Some(247)
    case DarkRed => Some(88)
    case DarkGreen => Some(22)
    case DarkBlue => Some(19)
    case DarkYellow => Some(136)
    case DarkPurple => Some(55)
    case _ => None
  }

  /** Every name is either a basic SGR colour or a palette colour, never both. */
  lemma EveryNameHasOneCode(name: Names)
    ensures BasicCode(name).Some? != PaletteIndex(name).Some?
  {
  }

  /** The SGR sequence of a two-digit parameter. */
  lemma SgrTwoDigits(parameter: nat)
    requires 10 <= parameter < 100
    ensures Sgr(parameter) == [Esc, '[', DigitChar(parameter / 10), DigitChar(parameter % 10), 'm']
  {
    assert NatToString(parameter) == [DigitChar(parameter / 10), DigitChar(parameter % 10)];
  }

  /** The SGR sequence of a three-digit parameter. */
  lemma SgrThreeDigits(parameter: nat)
    requires 100 <= parameter < 1000
    ensures Sgr(parameter) == [Esc, '[', DigitChar(parameter / 100), DigitChar(parameter / 10 % 10), DigitChar(parameter % 10), 'm']
  {
    var tens := parameter / 10;
    assert NatToString(tens) == NatToString(tens / 10) + [DigitChar(tens % 10)];
    assert tens / 10 == parameter / 100 && tens % 10 == parameter / 10 % 10;
    assert NatToString(parameter) == NatToString(tens) + [DigitChar(parameter % 10)];
  }

  /** An SGR sequence determines its parameter. */
  lemma SgrInjective(a: nat, b: nat)
    requires Sgr(a) == Sgr(b)
    ensures a == b
  {
    var sa, sb := Sgr(a), Sgr(b);
    assert NatToString(a) == sa[2..|sa| - 1];
    assert NatToString(b) == sb[2..|sb| - 1];
    NatToStringInjective(a, b);
  }

  /** Basic colours: the foreground is the SGR sequence of the colour's code. */
  lemma BasicForegroundIsSgr(name: Names)
    requires BasicCode(name).Some?
    ensures ColorOf(name) == Sgr(BasicCode(name).value)
  {
    match name
    case Black => BlackSgr();
    case Red => RedSgr();
    case Green => GreenSgr();
    case Yellow => YellowSgr();
    case Blue => BlueSgr();
    case Purple => PurpleSgr();
    case Cyan => CyanSgr();
    case White => WhiteSgr();
    case BrightBlack => BrightBlackSgr();
    case BrightRed => BrightRedSgr();
    case BrightGreen => BrightGreenSgr();
    case BrightYellow => BrightYellowSgr();
    case BrightBlue => BrightBlueSgr();
    case BrightPurple => BrightPurpleSgr();
    case BrightCyan => BrightCyanSgr();
    case BrightWhite => BrightWhiteSgr();
    case _ =>
  }

  /** Basic colours: the background is the SGR sequence of the code plus 10. */
  lemma BasicBackgroundIsSgr(name: Names)
    requires BasicCode(name).Some?
    ensures BackgroundColorOf(name) == Sgr(BasicCode(name).value + 10)
  {
    match name
    case Black => BlackSgr();
    case Red => RedSgr();
    case Green => GreenSgr();
    case Yellow => YellowSgr();
    case Blue => BlueSgr();
    case Purple => PurpleSgr();
    case Cyan => CyanSgr();
    case White => WhiteSgr();
    case BrightBlack => BrightBlackSgr();
    case BrightRed => BrightRedSgr();
    case BrightGreen => BrightGreenSgr();
    case BrightYellow => BrightYellowSgr();
    case BrightBlue => BrightBlueSgr();
    case BrightPurple => BrightPurpleSgr();
    case BrightCyan => BrightCyanSgr();
    case BrightWhite => BrightWhiteSgr();
    case _ =>
  }

  /** Black: SGR 30, background 40. */
  lemma BlackSgr()
    ensures ColorOf(Names.Black) == Sgr(30) && BackgroundColorOf(Names.Black) == Sgr(40)
  {
    SgrTwoDigits(30);
    SgrTwoDigits(40);
  }

  /** Red: SGR 31, background 41. */
  lemma RedSgr()
    ensures ColorOf(Names.Red) == Sgr(31) && BackgroundColorOf(Names.Red) == Sgr(41)
  {
    SgrTwoDigits(31);
    SgrTwoDigits(41);
  }

  /** Green: SGR 32, background 42. */
  lemma GreenSgr()
    ensures ColorOf(Names.Green) == Sgr(32) && BackgroundColorOf(Names.Green) == Sgr(42)
  {
    SgrTwoDigits(32);
    SgrTwoDigits(42);
  }

  /** Yellow: SGR 33, background 43. */
  lemma YellowSgr()
    ensures ColorOf(Names.Yellow) == Sgr(33) && BackgroundColorOf(Names.Yellow) == Sgr(43)
  {
    SgrTwoDigits(33);
    SgrTwoDigits(43);
  }

  /** Blue: SGR 34, background 44. */
  lemma BlueSgr()
    ensures ColorOf(Names.Blue) == Sgr(34) && BackgroundColorOf(Names.Blue) == Sgr(44)
  {
    SgrTwoDigits(34);
    SgrTwoDigits(44);
  }

  /** Purple: SGR 35, background 45. */
  lemma PurpleSgr()
    ensures ColorOf(Names.Purple) == Sgr(35) && BackgroundColorOf(Names.Purple) == Sgr(45)
  {
    SgrTwoDigits(35);
    SgrTwoDigits(45);
  }

  /** Cyan: SGR 36, background 46. */
  lemma CyanSgr()
    ensures ColorOf(Names.Cyan) == Sgr(36) && BackgroundColorOf(Names.Cyan) == Sgr(46)
  {
    SgrTwoDigits(36);
    SgrTwoDigits(46);
  }

  /** White: SGR 37, background 47. */
  lemma WhiteSgr()
    ensures ColorOf(Names.White) == Sgr(37) && BackgroundColorOf(Names.White) == Sgr(47)
  {
    SgrTwoDigits(37);
    SgrTwoDigits(47);
  }

  /** BrightBlack: SGR 90, background 100. */
  lemma BrightBlackSgr()
    ensures ColorOf(Names.BrightBlack) == Sgr(90) && BackgroundColorOf(Names.BrightBlack) == Sgr(100)
  {
    SgrTwoDigits(90);
    SgrThreeDigits(100);
  }

  /** BrightRed: SGR 91, background 101. */
  lemma BrightRedSgr()
    ensures ColorOf(Names.BrightRed) == Sgr(91) && BackgroundColorOf(Names.BrightRed) == Sgr(101)
  {
    SgrTwoDigits(91);
    SgrThreeDigits(101);
  }

  /** BrightGreen: SGR 92, background 102. */
  lemma BrightGreenSgr()
    ensures ColorOf(Names.BrightGreen) == Sgr(92) && BackgroundColorOf(Names.BrightGreen) == Sgr(102)
  {
    SgrTwoDigits(92);
    SgrThreeDigits(102);
  }

  /** BrightYellow: SGR 93, background 103. */
  lemma BrightYellowSgr()
    ensures ColorOf(Names.BrightYellow) == Sgr(93) && BackgroundColorOf(Names.BrightYellow) == Sgr(103)
  {
    SgrTwoDigits(93);
    SgrThreeDigits(103);
  }

  /** BrightBlue: SGR 94, background 104. */
  lemma BrightBlueSgr()
    ensures ColorOf(Names.BrightBlue) == Sgr(94) && BackgroundColorOf(Names.BrightBlue) == Sgr(104)
  {
    SgrTwoDigits(94);
    SgrThreeDigits(104);
  }

  /** BrightPurple: SGR 95, background 105. */
  lemma BrightPurpleSgr()
    ensures ColorOf(Names.BrightPurple) == Sgr(95) && BackgroundColorOf(Names.BrightPurple) == Sgr(105)
  {
    SgrTwoDigits(95);
    SgrThreeDigits(105);
  }

  /** BrightCyan: SGR 96, background 106. */
  lemma BrightCyanSgr()
    ensures ColorOf(Names.BrightCyan) == Sgr(96) && BackgroundColorOf(Names.BrightCyan) == Sgr(106)
  {
    SgrTwoDigits(96);
    SgrThreeDigits(106);
  }

  /** BrightWhite: SGR 97, background 107. */
  lemma BrightWhiteSgr()
    ensures ColorOf(Names.BrightWhite) == Sgr(97) && BackgroundColorOf(Names.BrightWhite) == Sgr(107)
  {
    SgrTwoDigits(97);
    SgrThreeDigits(107);
  }

  /** Palette colours: foreground `38;5;n` and background `48;5;n` with the
      same index n. */
  lemma PaletteColorsShareIndex(name: Names)
    requires PaletteIndex(name).Some?
    ensures ColorOf(name) == ForeColor(PaletteIndex(name).value)
    ensures BackgroundColorOf(name) == BackColor(PaletteIndex(name).value)
  {
    match name
    case Gray =>
    case Orange =>
    case Pink =>
    case CutePink =>
    case Aqua =>
    case Gold =>
    case LightGreen =>
    case LightBlue =>
    case Magenta =>
    case LightCyan =>
    case LightGray =>
    case DarkRed =>
    case DarkGreen =>
    case DarkBlue =>
    case DarkYellow =>
    case DarkPurple =>
    case _ =>
  }

  /** A basic colour's sequences differ: their parameters differ by ten. */
  lemma BasicForegroundDiffersFromBackground(name: Names)
    requires BasicCode(name).Some?
    ensures ColorOf(name) != BackgroundColorOf(name)
  {
    var code := BasicCode(name).value;
    var background: nat := code + 10;
    BasicForegroundIsSgr(name);
    BasicBackgroundIsSgr(name);
    if ColorOf(name) == BackgroundColorOf(name) {
      SgrInjective(code, background);
      assert false;
    }
  }

  /** No colour's foreground sequence equals its background sequence. */
  lemma ForegroundDiffersFromBackground(name: Names)
    ensures ColorOf(name) != BackgroundColorOf(name)
  {
    if BasicCode(name).Some? {
      BasicForegroundDiffersFromBackground(name);
    } else {
      PaletteColorsShareIndex(name);
      PaletteForegroundDiffersFromBackground(PaletteIndex(name).value);
    }
  }

  /** `38;5;n` and `48;5;n` differ in their first parameter digit. */
  lemma PaletteForegroundDiffersFromBackground(index: nat)
    ensures ForeColor(index) != BackColor(index)
  {
    assert ForeColor(index)[2] == '3' && BackColor(index)[2] == '4';
  }

  /** `Reset` and `Bold` are the SGR sequences with parameters 0 and 1. */
  lemma ResetAndBoldAreSgr()
    ensures Reset == Sgr(0) && Bold == Sgr(1)
  {
  }
}
