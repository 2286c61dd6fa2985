/** Source locations and their textual form (src/utils.rs), and the parser the VM side
    applies to the text handed out by the source locator (src/debugger/dap_context.rs). */
module Locations {
  import opened Prelude
  import opened Numerals

  const U32_LIMIT: nat := 0x1_0000_0000

  /** A path as Rust compares it: by its components, so that "/a/./b" and "/a/b" are one path. */
  type Path = seq<string>

  /** A location as the debugger compares it. */
  datatype SourceLoc = SourceLoc(path: Path, line: nat)

  /** A location with the text its path was written with. */
  datatype WrittenLoc = WrittenLoc(path: string, line: nat)

  /** How path texts are canonicalised, the failing case already falling back to the text itself, and how
      they are cut into components. Nothing is taken for granted about either but that they are functions. */
  datatype FileSystem = FileSystem(canon: string -> string, components: string -> Path)

  ghost predicate Idempotent(fs: FileSystem) {
    forall text :: fs.canon(fs.canon(text)) == fs.canon(text)
  }

  /** The path a location gets when it is made from a text. */
  function FileOf(fs: FileSystem, text: string): Path { fs.components(fs.canon(text)) }

  /** `SourceLoc::new`, as written and as compared. */
  function NewLoc(fs: FileSystem, text: string, line: nat): WrittenLoc { WrittenLoc(fs.canon(text), line) }

  function Compared(fs: FileSystem, loc: WrittenLoc): SourceLoc { SourceLoc(fs.components(loc.path), loc.line) }

  // ---------- Printing and parsing locations ----------

  function Print(loc: WrittenLoc): string {
    loc.path + ":" + Decimal(loc.line)
  }

  /** Rust's `rsplit_once` on one character: cut at the last occurrence. */
  function RSplitOnce(s: string, sep: char): Option<(string, string)> {
    if s == "" then None
    else
      var n := |s| - 1;
      if s[n] == sep then Some((s[..n], ""))
      else match RSplitOnce(s[..n], sep)
        case None => None
        case Some((front, back)) => Some((front, back + [s[n]]))
  }

  /** Rust's `u32::from_str`: an optional plus sign, then one or more digits, within range. */
  function ParseU32(s: string): Option<nat> {
    var digits := if s != "" && s[0] == '+' then s[1..] else s;
    if digits == "" || !AllDigits(digits) || DecimalValue(digits) >= U32_LIMIT then None
    else Some(DecimalValue(digits))
  }

  /** `vm_source_location` once the locator has answered with a string. */
  function ParseLoc(fs: FileSystem, s: string): Option<WrittenLoc> {
    match RSplitOnce(s, ':')
    case None => None
    case Some((path, lineText)) =>
      match ParseU32(lineText)
      case None => None
      case Some(line) => Some(NewLoc(fs, path, line))
  }

  /** The cut is at the last separator, whatever stands before it. */
  lemma {:induction false} RSplitAtLast(front: string, sep: char, back: string)
    requires sep !in back
    ensures RSplitOnce(front + [sep] + back, sep) == Some((front, back))
  {
    var s := front + [sep] + back;
    if back == "" {
      assert s[..|s| - 1] == front;
    } else {
      var shorter := back[..|back| - 1];
      RSplitAtLast(front, sep, shorter);
      assert s[..|s| - 1] == front + [sep] + shorter;
      assert shorter + [back[|back| - 1]] == back;
    }
  }

  lemma {:induction false} RSplitSound(s: string, sep: char)
    ensures RSplitOnce(s, sep).None? <==> sep !in s
    ensures RSplitOnce(s, sep).Some? ==>
              var (front, back) := RSplitOnce(s, sep).value;
              s == front + [sep] + back && sep !in back
  {
    if s != "" {
      var n := |s| - 1;
      assert s == s[..n] + [s[n]];
      RSplitSound(s[..n], sep);
    }
  }

  /** Printing then parsing gives back the location, even when the path contains ':'. */
  lemma PrintParse(fs: FileSystem, loc: WrittenLoc)
    requires fs.canon(loc.path) == loc.path
    requires loc.line < U32_LIMIT
    ensures ParseLoc(fs, Print(loc)) == Some(loc)
  {
    DecimalIsPlain(loc.line);
    RSplitAtLast(loc.path, ':', Decimal(loc.line));
  }

  /** Two canonical locations never print alike. */
  lemma PrintInjective(fs: FileSystem, a: WrittenLoc, b: WrittenLoc)
    requires fs.canon(a.path) == a.path && fs.canon(b.path) == b.path
    requires a.line < U32_LIMIT && b.line < U32_LIMIT
    ensures Print(a) == Print(b) <==> a == b
  {
    PrintParse(fs, a);
    PrintParse(fs, b);
  }

  /** The other direction: an accepted text is the print of its location exactly when its path part
      is canonical already and its line part is a plain numeral. */
  lemma ParsePrint(fs: FileSystem, s: string)
    requires ParseLoc(fs, s).Some?
    ensures RSplitOnce(s, ':').Some?
    ensures var (path, lineText) := RSplitOnce(s, ':').value;
            Print(ParseLoc(fs, s).value) == s <==> fs.canon(path) == path && PlainNumeral(lineText)
  {
    var (path, lineText) := RSplitOnce(s, ':').value;
    RSplitSound(s, ':');
    ParsedNumeral(lineText);
    var line := ParseU32(lineText).value;
    RSplitAtLast(fs.canon(path), ':', Decimal(line));
  }

  lemma ParsedNumeral(text: string)
    requires ParseU32(text).Some?
    ensures Decimal(ParseU32(text).value) == text <==> PlainNumeral(text)
    ensures ':' !in Decimal(ParseU32(text).value)
  {
    DecimalIsPlain(ParseU32(text).value);
    if PlainNumeral(text) { PlainIsDecimal(text); }
  }

  /** The text is digits, perhaps behind a plus sign, of a number of 32 bits. */
  ghost predicate LineWrittenAs(text: string, sign: string, digits: string) {
    && text == sign + digits && (sign == "" || sign == "+")
    && digits != "" && AllDigits(digits) && DecimalValue(digits) < 0x1_0000_0000
  }

  lemma LineParsed(text: string, sign: string, digits: string)
    requires LineWrittenAs(text, sign, digits)
    ensures ParseU32(text) == Some(DecimalValue(digits))
  {
    assert IsDigit(digits[0]);
    if sign == "+" { assert text[1..] == digits; } else { assert text == digits; }
  }

  /** Exactly such lines are accepted, with the number they denote. */
  lemma AcceptedLines(text: string)
    ensures ParseU32(text).Some? <==> exists sign, digits :: LineWrittenAs(text, sign, digits)
    ensures forall sign, digits :: LineWrittenAs(text, sign, digits) ==> ParseU32(text) == Some(DecimalValue(digits))
  {
    forall sign, digits | LineWrittenAs(text, sign, digits) ensures ParseU32(text) == Some(DecimalValue(digits)) {
      LineParsed(text, sign, digits);
    }
    if ParseU32(text).Some? {
      if text[0] == '+' {
        assert text == "+" + text[1..];
        assert LineWrittenAs(text, "+", text[1..]);
      } else {
        assert text == "" + text;
        assert LineWrittenAs(text, "", text);
      }
    }
  }

  /** A location is accepted if the part behind its last ':' is a line, and no other is. */
  lemma AcceptedTexts(fs: FileSystem, path: string, lineText: string)
    requires ':' !in lineText
    ensures ParseLoc(fs, path + [':'] + lineText) ==
            if ParseU32(lineText).Some? then Some(WrittenLoc(fs.canon(path), ParseU32(lineText).value)) else None
    ensures ParseLoc(fs, lineText) == None
  {
    RSplitAtLast(path, ':', lineText);
    RSplitSound(lineText, ':');
  }
}
