/** The JavaScript values and operators the modelled code relies on. */
module JsText {

  datatype Option<+T> = None | Some(value: T)

  datatype Result<+T, +E> = Ok(value: T) | Err(error: E)

  type Byte = b: nat | b < 256

  /** The white space matched by `\s` and removed by trim. */
  predicate IsSpace(c: char) {
    var n := c as int;
    9 <= n <= 13 || n == 0x20 || n == 0xA0 || n == 0x1680 || 0x2000 <= n <= 0x200A ||
    n == 0x2028 || n == 0x2029 || n == 0x202F || n == 0x205F || n == 0x3000 || n == 0xFEFF
  }

  /** The white space and line terminators of ECMAScript, section 12.2 and 12.3 of ECMA-262. */
  const SPACES: set<char> :=
    {'\t', '\n', '\U{B}', '\U{C}', '\r', ' ', '\U{A0}', '\U{1680}', '\U{2000}', '\U{2001}', '\U{2002}', '\U{2003}',
     '\U{2004}', '\U{2005}', '\U{2006}', '\U{2007}', '\U{2008}', '\U{2009}', '\U{200A}', '\U{2028}', '\U{2029}',
     '\U{202F}', '\U{205F}', '\U{3000}', '\U{FEFF}'}

  lemma SpacesAreListed(c: char)
    ensures IsSpace(c) <==> c in SPACES
  {
    assert c as int as char == c;
  }

  function TrimEnd(text: string): (r: string)
    ensures r <= text
    ensures r != "" ==> !IsSpace(r[|r| - 1])
  {
    if text != "" && IsSpace(text[|text| - 1]) then TrimEnd(text[..|text| - 1]) else text
  }

  function TrimStart(text: string): (r: string)
    ensures r != "" ==> !IsSpace(r[0])
  {
    if text != "" && IsSpace(text[0]) then TrimStart(text[1..]) else text
  }

  /** Trimming takes white space off an end, all of it and nothing else. */
  lemma {:induction false} TrimEndMeans(text: string, blank: string)
    requires forall c :: c in blank ==> IsSpace(c)
    requires text != "" ==> !IsSpace(text[|text| - 1])
    ensures TrimEnd(text + blank) == text
    decreases |blank|
  {
    hide IsSpace;
    if blank == "" {
      assert text + blank == text;
    } else {
      var init, last := blank[..|blank| - 1], blank[|blank| - 1];
      assert last in blank && (text + blank)[..|text + blank| - 1] == text + init;
      TrimEndMeans(text, init);
    }
  }

  lemma {:induction false} TrimStartMeans(blank: string, text: string)
    requires forall c :: c in blank ==> IsSpace(c)
    requires text != "" ==> !IsSpace(text[0])
    ensures TrimStart(blank + text) == text
  {
    hide IsSpace;
    if blank == "" {
      assert blank + text == text;
    } else {
      assert blank[0] in blank && (blank + text)[1..] == blank[1..] + text;
      TrimStartMeans(blank[1..], text);
    }
  }

  /** ECMAScript ToInt32: the operand conversion of every bitwise operator. */
  function ToInt32(x: int): int {
    var m := x % 0x1_0000_0000;
    if m >= 0x8000_0000 then m - 0x1_0000_0000 else m
  }

  /** `x << 8` */
  function ShiftLeft8(x: int): int { ToInt32(ToInt32(x) * 256) }

  /** `x >> 8` */
  function ShiftRight8(x: int): int { ToInt32(x) / 256 }

  /** `x & 0xff`; the low byte of the two's complement pattern */
  function LowByte(x: int): Byte { ToInt32(x) % 256 }

  /** The element written by storing `x` in a Uint32Array. */
  function ToUint32(x: int): nat { x % 0x1_0000_0000 }
}
