/** The closed sets of colour escapes and block glyphs a console pixel is
    drawn with, and the pixel record itself. */
module Palette {

  /** ANSI foreground colours, each a "CSI <n> m" escape sequence. */
  datatype Color = Red | Green | Yellow | Blue | Purple | Cyan | White
  {
    function ToString(): (s: string)
      ensures |s| == 5 && s[0] == '\U{1B}' && s[1] == '[' && s[2] == '3' && s[4] == 'm'
      ensures '\n' !in s
    {
      match this
      case Red => "\U{1B}[31m"
      case Green => "\U{1B}[32m"
      case Yellow => "\U{1B}[33m"
      case Blue => "\U{1B}[34m"
      case Purple => "\U{1B}[35m"
      case Cyan => "\U{1B}[36m"
      case White => "\U{1B}[37m"
    }
  }

  /** Block-density glyphs, from full block down to a blank cell. */
  datatype Glyph = FullBlock | DarkBlock | MediumBlock | LightBlock | SpaceBlock
  {
    function ToString(): (s: string)
      ensures |s| == 1 && s[0] != '\n'
    {
      match this
      case FullBlock => "\U{2588}"
      case DarkBlock => "\U{2593}"
      case MediumBlock => "\U{2592}"
      case LightBlock => "\U{2591}"
      case SpaceBlock => " "
    }
  }

  /** One cell of the console framebuffer. */
  datatype Pixel = Pixel(pixelType: Glyph, color: Color)
}
