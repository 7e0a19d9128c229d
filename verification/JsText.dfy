/** JavaScript strings as the programs see them: sequences of 16-bit code units. */
module JsText {
  type Unit = u: nat | u < 0x10000
  type Text = seq<Unit>

  const TAB: Unit := 9
  const LF: Unit := 10
  const CR: Unit := 13
  const SPACE: Unit := 32
  const QUOTE: Unit := 34
  const COMMA: Unit := 44
  const BOM: Unit := 0xFEFF

  /** What `trim` removes: the white space and line terminators of the language. */
  predicate IsSpace(u: Unit) {
    || 9 <= u <= 13 || u == 32 || u == 0xA0 || u == 0x1680 || 0x2000 <= u <= 0x200A
    || u == 0x2028 || u == 0x2029 || u == 0x202F || u == 0x205F || u == 0x3000 || u == 0xFEFF
  }

  /** The text of which `trim` leaves nothing. */
  predicate Blank(s: Text) {
    forall u :: u in s ==> IsSpace(u)
  }

  /** `replace(/\s+/g, "")` */
  function WithoutSpaces(s: Text): Text {
    if s == [] then [] else (if IsSpace(s[0]) then [] else [s[0]]) + WithoutSpaces(s[1..])
  }

  predicate Starts(s: Text, u: Unit) {
    s != [] && s[0] == u
  }

  function Join(parts: seq<Text>, separator: Text): Text {
    if parts == [] then []
    else if |parts| == 1 then parts[0]
    else parts[0] + separator + Join(parts[1..], separator)
  }

  /** The characters of White_Space and the line terminators, by their code points. */
  lemma {:induction false} SpacesAre(u: Unit)
    ensures IsSpace(u) <==> u in {0x09, 0x0A, 0x0B, 0x0C, 0x0D, 0x20, 0xA0, 0x1680, 0x2000, 0x2001, 0x2002, 0x2003, 0x2004, 0x2005,
                                  0x2006, 0x2007, 0x2008, 0x2009, 0x200A, 0x2028, 0x2029, 0x202F, 0x205F, 0x3000, 0xFEFF}
  {
  }
}
