/**
 * `Color` of the command-line tool (`rocal_cli/src/commands/utils/color.rs`):
 * sixteen ANSI foreground colours, each an escape sequence `ESC [ n m`, and
 * the reset sequence that ends coloured text.
 */
module Color {
  /** The variants as declared, including the source's spelling `BrigthYellow`. */
  datatype Color =
    | Black | Red | Green | Yellow | Blue | Magenta | Cyan | White
    | Gray | BrightRed | BrightGreen | BrigthYellow | BrightBlue | BrightMagenta | BrightCyan | BrightWhite

  const Esc: char := 27 as char

  /** `Color::reset`. */
  function Reset(): (r: string)
    ensures r == [Esc, '[', '0', 'm']
  {
    [Esc] + "[0m"
  }

  /** `Color::code`. */
  function Code(c: Color): string {
    match c
    case Black => [Esc] + "[30m"
    case Red => [Esc] + "[31m"
    case Green => [Esc] + "[32m"
    case Yellow => [Esc] + "[33m"
    case Blue => [Esc] + "[34m"
    case Magenta => [Esc] + "[35m"
    case Cyan => [Esc] + "[36m"
    case White => [Esc] + "[37m"
    case Gray => [Esc] + "[90m"
    case BrightRed => [Esc] + "[91m"
    case BrightGreen => [Esc] + "[92m"
    case BrigthYellow => [Esc] + "[93m"
    case BrightBlue => [Esc] + "[94m"
    case BrightMagenta => [Esc] + "[95m"
    case BrightCyan => [Esc] + "[96m"
    case BrightWhite => [Esc] + "[97m"
  }

  /** The SGR parameter of a colour: 30 + its index for the base eight, 90 + its index for the rest. */
  function Number(c: Color): (n: nat)
    ensures 30 <= n <= 37 || 90 <= n <= 97
    ensures (30 <= n <= 37) <==> c in {Black, Red, Green, Yellow, Blue, Magenta, Cyan, White}
  {
    match c
    case Black => 30
    case Red => 31
    case Green => 32
    case Yellow => 33
    case Blue => 34
    case Magenta => 35
    case Cyan => 36
    case White => 37
    case Gray => 90
    case BrightRed => 91
    case BrightGreen => 92
    case BrigthYellow => 93
    case BrightBlue => 94
    case BrightMagenta => 95
    case BrightCyan => 96
    case BrightWhite => 97
  }

  /** The decimal digit of `0 <= d < 10`. */
  function Digit(d: nat): char
    requires d < 10
  {
    ('0' as int + d) as char
  }

  /** Each code is `ESC [`, the colour's number in two decimal digits, and `m`. */
  lemma CodeIsNumber(c: Color)
    ensures Code(c) == [Esc, '['] + [Digit(Number(c) / 10), Digit(Number(c) % 10)] + ['m']
  {
  }

  /** No two colours share a number. */
  lemma NumberInjective(a: Color, b: Color)
    ensures Number(a) == Number(b) <==> a == b
  {
  }

  /** The sixteen codes are pairwise distinct. */
  lemma CodesDistinct(a: Color, b: Color)
    ensures Code(a) == Code(b) <==> a == b
  {
    CodeIsNumber(a);
    CodeIsNumber(b);
    NumberInjective(a, b);
    if Code(a) == Code(b) {
      assert Code(a)[2] == Code(b)[2] && Code(a)[3] == Code(b)[3];
    }
  }

  /** `Color::text`: the code, the text, and the reset sequence. */
  function Text(c: Color, t: string): (r: string)
    ensures |r| == |t| + 9
    ensures r[..5] == Code(c) && r[5..|r| - 4] == t && r[|r| - 4..] == Reset()
  {
    Code(c) + t + [Esc] + "[0m"
  }

  /** The colour and the text can be read back from coloured text. */
  lemma TextInjective(a: Color, s: string, b: Color, t: string)
    ensures Text(a, s) == Text(b, t) <==> a == b && s == t
  {
    if Text(a, s) == Text(b, t) {
      CodesDistinct(a, b);
    }
  }
}
