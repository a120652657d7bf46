/**
 The scanner on any JSON object, as RFC 8259 writes them: white space between the tokens,
 any escapes in strings, and numbers, literals, arrays and objects as values, nested to any
 depth. It returns the decoded text of the first member of the outermost object whose key
 is written like the field, if that member is a string, and otherwise nothing.
 */
module JsonTexts {
  import opened Words
  import opened Endian
  import opened Json
  import L = JsonLaws

  // ---- Texts (sections 2 to 7 of RFC 8259) ----------------------------------------------------

  /** One character of a string, in one of the three ways it can be written. */
  datatype Glyph = Plain(unit: U16) | Short(letter: U16) | Hex(digits: Text)

  predicate GlyphOk(g: Glyph) {
    match g
    case Plain(c) => c != QUOTE && c != BACKSLASH
    case Short(c) => c in {QUOTE, BACKSLASH, 0x2F, 0x62, 0x66, 0x6E, 0x72, 0x74}
    case Hex(d) => |d| == 4 && forall i | 0 <= i < 4 :: HexValue(d[i]).Some?
  }

  function GlyphText(g: Glyph): Text {
    match g
    case Plain(c) => [c]
    case Short(c) => [BACKSLASH, c]
    case Hex(d) => [BACKSLASH, 0x75] + d
  }

  /** The code unit a glyph stands for. */
  function Meaning(g: Glyph): U16
    requires GlyphOk(g)
  {
    match g
    case Plain(c) => c
    case Short(c) => map[QUOTE := QUOTE, BACKSLASH := BACKSLASH, 0x2F := 0x2F, 0x62 := 0x08, 0x66 := 0x0C, 0x6E := 0x0A,
                         0x72 := 0x0D, 0x74 := 0x09][c]
    case Hex(d) =>
      4096 * HexValue(d[0]).value + 256 * HexValue(d[1]).value + 16 * HexValue(d[2]).value + HexValue(d[3]).value
  }

  predicate StringOk(gs: seq<Glyph>) {
    forall i | 0 <= i < |gs| :: GlyphOk(gs[i])
  }

  function StringText(gs: seq<Glyph>): Text {
    if gs == [] then [] else GlyphText(gs[0]) + StringText(gs[1..])
  }

  function Decoded(gs: seq<Glyph>): (r: Text)
    requires StringOk(gs)
    ensures |r| == |gs| && forall i :: 0 <= i < |gs| ==> r[i] == Meaning(gs[i])
  {
    seq(|gs|, i requires 0 <= i < |gs| => Meaning(gs[i]))
  }

  /** What stands between two brackets: units that are none, strings, and nested brackets. */
  datatype Pieces =
    | Nothing
    | Unit(unit: U16, rest: Pieces)
    | Quoted(glyphs: seq<Glyph>, rest: Pieces)
    | Nested(brace: bool, inner: Pieces, rest: Pieces)

  predicate Bracket(c: U16) {
    c == OPEN_BRACE || c == OPEN_BRACKET || c == CLOSE_BRACE || c == CLOSE_BRACKET
  }

  predicate Ordinary(c: U16) {
    c != QUOTE && !Bracket(c)
  }

  predicate PiecesOk(p: Pieces) {
    match p
    case Nothing => true
    case Unit(c, rest) => Ordinary(c) && PiecesOk(rest)
    case Quoted(gs, rest) => StringOk(gs) && PiecesOk(rest)
    case Nested(_, inner, rest) => PiecesOk(inner) && PiecesOk(rest)
  }

  function Opening(brace: bool): U16 {
    if brace then OPEN_BRACE else OPEN_BRACKET
  }

  function Closing(brace: bool): U16 {
    if brace then CLOSE_BRACE else CLOSE_BRACKET
  }

  function PiecesText(p: Pieces): Text {
    match p
    case Nothing => []
    case Unit(c, rest) => [c] + PiecesText(rest)
    case Quoted(gs, rest) => [QUOTE] + (StringText(gs) + ([QUOTE] + PiecesText(rest)))
    case Nested(b, inner, rest) => [Opening(b)] + (PiecesText(inner) + ([Closing(b)] + PiecesText(rest)))
  }

  /** A member's value: a string, a number or literal, or an object or array. */
  datatype Value = String(glyphs: seq<Glyph>) | Bare(text: Text) | Group(brace: bool, inner: Pieces)

  predicate ValueOk(v: Value) {
    match v
    case String(gs) => StringOk(gs)
    case Bare(s) => s != [] && !IsWhite(s[0]) && forall i | 0 <= i < |s| :: Ordinary(s[i])
    case Group(_, inner) => PiecesOk(inner)
  }

  function ValueText(v: Value): Text {
    match v
    case String(gs) => [QUOTE] + (StringText(gs) + [QUOTE])
    case Bare(s) => s
    case Group(b, inner) => [Opening(b)] + (PiecesText(inner) + [Closing(b)])
  }

  /** A member with the white space around its parts. */
  datatype Field = Field(before: Text, key: seq<Glyph>, mid: Text, after: Text, value: Value, behind: Text)

  predicate White(s: Text) {
    forall i | 0 <= i < |s| :: IsWhite(s[i])
  }

  predicate FieldOk(f: Field) {
    White(f.before) && StringOk(f.key) && White(f.mid) && White(f.after) && ValueOk(f.value) && White(f.behind)
  }

  /** From the key's opening quote to the value. */
  function KeyText(f: Field): Text {
    [QUOTE] + (StringText(f.key) + ([QUOTE] + (f.mid + ([COLON] + f.after))))
  }

  function FieldText(f: Field): Text {
    f.before + (KeyText(f) + (ValueText(f.value) + f.behind))
  }

  function FieldsText(fs: seq<Field>): Text {
    if fs == [] then [CLOSE_BRACE]
    else FieldText(fs[0]) + (if |fs| == 1 then [CLOSE_BRACE] else [COMMA] + FieldsText(fs[1..]))
  }

  datatype Document = Document(lead: Text, blank: Text, fields: seq<Field>, tail: Text)

  predicate DocumentOk(d: Document) {
    White(d.lead) && White(d.blank) && White(d.tail) && forall i | 0 <= i < |d.fields| :: FieldOk(d.fields[i])
  }

  function DocumentText(d: Document): Text {
    d.lead + ([OPEN_BRACE] + (d.blank + (FieldsText(d.fields) + d.tail)))
  }

  /** What the document says of a field: the text of the first member of that name, if it is a string. */
  function Says(fs: seq<Field>, field: Text): Option<Text>
    requires forall i | 0 <= i < |fs| :: FieldOk(fs[i])
  {
    if fs == [] then None
    else if StringText(fs[0].key) == field then
      assert FieldOk(fs[0]);
      if fs[0].value.String? then Some(Decoded(fs[0].value.glyphs)) else None
    else Says(fs[1..], field)
  }

  // ---- Strings --------------------------------------------------------------------------------

  lemma UnitsAt(json: Text, i: nat, s: Text, j: nat)
    requires At(json, i, s) && j < |s|
    ensures i + j < |json| && json[i + j] == s[j]
  {
    assert json[i..i + |s|][j] == s[j];
  }

  lemma NoQuoteInHex(c: U16)
    requires HexValue(c).Some?
    ensures c != QUOTE && c != BACKSLASH && !NumberWhite(c)
  {
  }

  lemma DigitAt(json: Text, i: nat, d: Text, j: nat)
    requires GlyphOk(Hex(d)) && At(json, i, GlyphText(Hex(d))) && j < 4
    ensures i + 2 + j < |json| && json[i + 2 + j] != QUOTE && json[i + 2 + j] != BACKSLASH
  {
    hide At;
    UnitsAt(json, i, GlyphText(Hex(d)), 2 + j);
    NoQuoteInHex(d[j]);
  }

  /** A glyph is passed over as a whole. */
  lemma GlyphEnds(json: Text, i: nat, g: Glyph)
    requires GlyphOk(g) && At(json, i, GlyphText(g))
    ensures EndFrom(json, i) == EndFrom(json, i + |GlyphText(g)|)
  {
    hide At;
    var s := GlyphText(g);
    UnitsAt(json, i, s, 0);
    if g.Hex? {
      DigitAt(json, i, g.digits, 0);
      DigitAt(json, i, g.digits, 1);
      DigitAt(json, i, g.digits, 2);
      DigitAt(json, i, g.digits, 3);
      assert EndFrom(json, i) == EndFrom(json, i + 2);
      assert EndFrom(json, i + 2) == EndFrom(json, i + 3);
      assert EndFrom(json, i + 3) == EndFrom(json, i + 4);
      assert EndFrom(json, i + 4) == EndFrom(json, i + 5);
      assert EndFrom(json, i + 5) == EndFrom(json, i + 6);
    }
  }

  lemma {:induction false} StringEnds(json: Text, i: nat, gs: seq<Glyph>)
    requires StringOk(gs) && At(json, i, StringText(gs) + [QUOTE])
    ensures EndFrom(json, i) == Some(i + |StringText(gs)|)
    decreases |gs|
  {
    hide At, GlyphOk, GlyphText;
    if gs == [] {
      UnitsAt(json, i, StringText(gs) + [QUOTE], 0);
    } else {
      var s, rest := GlyphText(gs[0]), StringText(gs[1..]);
      assert StringText(gs) + [QUOTE] == s + (rest + [QUOTE]);
      AtSplit(json, i, s, rest + [QUOTE]);
      GlyphEnds(json, i, gs[0]);
      StringEnds(json, i + |s|, gs[1..]);
    }
  }

  /** Four hexadecimal digits are the number they write. */
  lemma FourDigits(d: Text)
    requires |d| == 4 && forall i | 0 <= i < 4 :: HexValue(d[i]).Some?
    ensures ParseHex(d) == Some(Meaning(Hex(d)))
  {
    L.AllHex(d);
    NoQuoteInHex(d[0]);
    assert LeadingWhite(d) == 0 && d[0..] == d && d[..4] == d && d[4..] == [];
    assert d[..3][..2] == d[..2] && d[..2][..1] == d[..1] && d[..1][..0] == [];
    assert HexNumber(d[..1]) == HexValue(d[0]).value;
    assert HexNumber(d[..2]) == 16 * HexNumber(d[..1]) + HexValue(d[1]).value;
    assert HexNumber(d[..3]) == 16 * HexNumber(d[..2]) + HexValue(d[2]).value;
  }

  /** A glyph is read as what it stands for. */
  lemma GlyphReads(json: Text, i: nat, g: Glyph, acc: Text)
    requires GlyphOk(g) && At(json, i, GlyphText(g))
    ensures ReadFrom(json, i, acc) == ReadFrom(json, i + |GlyphText(g)|, acc + [Meaning(g)])
  {
    hide At, ParseHex;
    var s := GlyphText(g);
    UnitsAt(json, i, s, 0);
    if !g.Plain? { UnitsAt(json, i, s, 1); }
    if g.Hex? {
      AtIs(json, i, s);
      assert json[i + 2..i + 6] == s[2..] == g.digits;
      FourDigits(g.digits);
    }
  }

  lemma {:induction false} StringReads(json: Text, i: nat, gs: seq<Glyph>, acc: Text)
    requires StringOk(gs) && At(json, i, StringText(gs) + [QUOTE])
    ensures ReadFrom(json, i, acc) == Some(acc + Decoded(gs))
    decreases |gs|
  {
    hide At, GlyphOk, GlyphText, Meaning, ParseHex;
    if gs == [] {
      UnitsAt(json, i, StringText(gs) + [QUOTE], 0);
      assert acc + Decoded(gs) == acc;
    } else {
      var s, rest := GlyphText(gs[0]), StringText(gs[1..]);
      assert StringText(gs) + [QUOTE] == s + (rest + [QUOTE]);
      AtSplit(json, i, s, rest + [QUOTE]);
      GlyphReads(json, i, gs[0], acc);
      StringReads(json, i + |s|, gs[1..], acc + [Meaning(gs[0])]);
      assert acc + [Meaning(gs[0])] + Decoded(gs[1..]) == acc + Decoded(gs);
    }
  }

  // ---- What the scanner passes over -------------------------------------------------------------

  /** Units that are neither quotes nor brackets mean nothing to it. */
  lemma {:induction false} OrdinarySkipped(json: Text, field: Text, i: nat, depth: int, s: Text)
    requires At(json, i, s) && forall k | 0 <= k < |s| :: Ordinary(s[k])
    ensures FindFrom(json, field, i, depth) == FindFrom(json, field, i + |s|, depth)
    decreases |s|
  {
    hide At, EndFrom, SkipWhite;
    if s == [] {
    } else {
      UnitsAt(json, i, s, 0);
      assert s == [s[0]] + s[1..];
      AtSplit(json, i, [s[0]], s[1..]);
      OrdinarySkipped(json, field, i + 1, depth, s[1..]);
    }
  }

  lemma WhiteSkipped(json: Text, field: Text, i: nat, depth: int, s: Text)
    requires At(json, i, s) && White(s)
    ensures FindFrom(json, field, i, depth) == FindFrom(json, field, i + |s|, depth)
  {
    hide At, FindFrom;
    OrdinarySkipped(json, field, i, depth, s);
  }

  /** A bracket only changes the depth. */
  lemma Bracketed(json: Text, field: Text, i: nat, depth: int, b: bool)
    ensures At(json, i, [Opening(b)]) ==> FindFrom(json, field, i, depth) == FindFrom(json, field, i + 1, depth + 1)
    ensures At(json, i, [Closing(b)]) ==> FindFrom(json, field, i, depth) == FindFrom(json, field, i + 1, depth - 1)
  {
    hide EndFrom, SkipWhite;
    if At(json, i, [Opening(b)]) { UnitsAt(json, i, [Opening(b)], 0); }
    if At(json, i, [Closing(b)]) { UnitsAt(json, i, [Closing(b)], 0); }
  }

  /** Below the outermost object everything well nested is passed over, strings included. */
  lemma {:induction false} PiecesSkipped(json: Text, field: Text, i: nat, depth: int, p: Pieces)
    requires PiecesOk(p) && depth >= 2 && At(json, i, PiecesText(p))
    ensures FindFrom(json, field, i, depth) == FindFrom(json, field, i + |PiecesText(p)|, depth)
    decreases p
  {
    hide At, FindFrom, StringText;
    match p
    case Nothing =>
    case Unit(c, rest) =>
      AtSplit(json, i, [c], PiecesText(rest));
      OrdinarySkipped(json, field, i, depth, [c]);
      PiecesSkipped(json, field, i + 1, depth, rest);
    case Quoted(gs, rest) =>
      InnerString(json, field, i, depth, gs, PiecesText(rest));
      PiecesSkipped(json, field, i + 2 + |StringText(gs)|, depth, rest);
    case Nested(b, inner, rest) =>
      var s, behind := PiecesText(inner), [Closing(b)] + PiecesText(rest);
      AtSplit(json, i, [Opening(b)], s + behind);
      Bracketed(json, field, i, depth, b);
      AtSplit(json, i + 1, s, behind);
      PiecesSkipped(json, field, i + 1, depth + 1, inner);
      AtSplit(json, i + 1 + |s|, [Closing(b)], PiecesText(rest));
      Bracketed(json, field, i + 1 + |s|, depth + 1, b);
      PiecesSkipped(json, field, i + 2 + |s|, depth, rest);
  }

  lemma InnerString(json: Text, field: Text, i: nat, depth: int, gs: seq<Glyph>, rest: Text)
    requires StringOk(gs) && depth >= 2 && At(json, i, [QUOTE] + (StringText(gs) + ([QUOTE] + rest)))
    ensures FindFrom(json, field, i, depth) == FindFrom(json, field, i + 2 + |StringText(gs)|, depth)
    ensures At(json, i + 2 + |StringText(gs)|, rest)
  {
    hide At, EndFrom, SkipWhite, StringText;
    StringAt(json, i, gs, rest);
  }

  /** Where a string and what follows it stand. */
  lemma StringAt(json: Text, i: nat, gs: seq<Glyph>, rest: Text)
    requires StringOk(gs) && At(json, i, [QUOTE] + (StringText(gs) + ([QUOTE] + rest)))
    ensures i < |json| && json[i] == QUOTE && EndFrom(json, i + 1) == Some(i + 1 + |StringText(gs)|)
    ensures At(json, i + 1, StringText(gs) + [QUOTE]) && At(json, i + 2 + |StringText(gs)|, rest)
    ensures i + 1 + |StringText(gs)| < |json| && json[i + 1..i + 1 + |StringText(gs)|] == StringText(gs)
  {
    hide At, EndFrom, StringText;
    var s := StringText(gs);
    AtSplit(json, i, [QUOTE], s + ([QUOTE] + rest));
    UnitsAt(json, i, [QUOTE], 0);
    assert s + ([QUOTE] + rest) == (s + [QUOTE]) + rest;
    AtSplit(json, i + 1, s + [QUOTE], rest);
    StringEnds(json, i + 1, gs);
    AtSplit(json, i + 1, s, [QUOTE]);
    AtIs(json, i + 1, s);
  }

  /** White space up to a unit that is none. */
  lemma {:induction false} WhiteEnds(json: Text, i: nat, s: Text, c: U16)
    requires At(json, i, s + [c]) && White(s) && !IsWhite(c)
    ensures SkipWhite(json, i) == i + |s|
    decreases |s|
  {
    hide At;
    UnitsAt(json, i, s + [c], 0);
    if s == [] {
    } else {
      assert s + [c] == [s[0]] + (s[1..] + [c]);
      AtSplit(json, i, [s[0]], s[1..] + [c]);
      WhiteEnds(json, i + 1, s[1..], c);
    }
  }

  // ---- Members ------------------------------------------------------------------------------------

  predicate Ends(c: U16) {
    c == COMMA || c == CLOSE_BRACE
  }

  /** A value of the outermost object, up to the comma or brace behind it, is passed over. */
  lemma ValueSkipped(json: Text, field: Text, i: nat, v: Value, behind: Text, c: U16)
    requires ValueOk(v) && White(behind) && Ends(c) && At(json, i, ValueText(v) + (behind + [c]))
    ensures FindFrom(json, field, i, 1) == FindFrom(json, field, i + |ValueText(v)| + |behind|, 1)
  {
    hide At, EndFrom, SkipWhite, StringText, FindFrom, PiecesText;
    var s := ValueText(v);
    AtSplit(json, i, s, behind + [c]);
    AtSplit(json, i + |s|, behind, [c]);
    WhiteSkipped(json, field, i + |s|, 1, behind);
    match v
    case Bare(_) => OrdinarySkipped(json, field, i, 1, s);
    case Group(b, inner) => GroupSkipped(json, field, i, b, inner);
    case String(gs) =>
      assert s + (behind + [c]) == [QUOTE] + (StringText(gs) + ([QUOTE] + (behind + [c])));
      StringAt(json, i, gs, behind + [c]);
      WhiteEnds(json, i + |s|, behind, c);
      UnitsAt(json, i + |s|, behind + [c], |behind|);
      NotAKey(json, field, i, i + |s| - 1, i + |s| + |behind|);
  }

  lemma GroupSkipped(json: Text, field: Text, i: nat, b: bool, inner: Pieces)
    requires PiecesOk(inner) && At(json, i, [Opening(b)] + (PiecesText(inner) + [Closing(b)]))
    ensures FindFrom(json, field, i, 1) == FindFrom(json, field, i + 2 + |PiecesText(inner)|, 1)
  {
    hide At, EndFrom, SkipWhite, PiecesText;
    var s := PiecesText(inner);
    AtSplit(json, i, [Opening(b)], s + [Closing(b)]);
    UnitsAt(json, i, [Opening(b)], 0);
    AtSplit(json, i + 1, s, [Closing(b)]);
    PiecesSkipped(json, field, i + 1, 2, inner);
    UnitsAt(json, i + 1 + |s|, [Closing(b)], 0);
  }

  /** A string with no colon behind it is no key. */
  lemma NotAKey(json: Text, field: Text, i: nat, end: nat, j: nat)
    requires i < |json| && json[i] == QUOTE && EndFrom(json, i + 1) == Some(end)
    requires end + 1 <= |json| && SkipWhite(json, end + 1) == j < |json| && json[j] != COLON
    ensures FindFrom(json, field, i, 1) == FindFrom(json, field, end + 1, 1)
  {
  }

  /** A string with a colon behind it is a key: the field's value is found behind it, or it is passed over. */
  lemma AKey(json: Text, field: Text, i: nat, end: nat, j: nat)
    requires i < |json| && json[i] == QUOTE && EndFrom(json, i + 1) == Some(end)
    requires end + 1 <= |json| && SkipWhite(json, end + 1) == j < |json| && json[j] == COLON
    ensures FindFrom(json, field, i, 1) ==
            if json[i + 1..end] == field then Some(SkipWhite(json, j + 1)) else FindFrom(json, field, j + 1, 1)
  {
  }

  lemma ValueStarts(v: Value)
    requires ValueOk(v)
    ensures ValueText(v) != [] && !IsWhite(ValueText(v)[0])
  {
    hide StringText, PiecesText;
  }

  /** Where the parts of a key stand. */
  lemma KeyAt(json: Text, i: nat, f: Field, rest: Text)
    requires FieldOk(f) && At(json, i, KeyText(f) + rest)
    ensures var s := StringText(f.key);
            var j := i + 2 + |s| + |f.mid|;
            && i < j < |json| && json[i] == QUOTE && json[j] == COLON && json[i + 1..i + 1 + |s|] == s
            && EndFrom(json, i + 1) == Some(i + 1 + |s|) && SkipWhite(json, i + 2 + |s|) == j
            && At(json, j + 1, f.after + rest) && |KeyText(f)| == j + 1 + |f.after| - i
  {
    hide At, EndFrom, SkipWhite, StringText;
    var s, back := StringText(f.key), f.after + rest;
    assert KeyText(f) + rest == [QUOTE] + (s + ([QUOTE] + ((f.mid + [COLON]) + back)));
    StringAt(json, i, f.key, (f.mid + [COLON]) + back);
    var m := i + 2 + |s|;
    AtSplit(json, m, f.mid + [COLON], back);
    WhiteEnds(json, m, f.mid, COLON);
    UnitsAt(json, m, f.mid + [COLON], |f.mid|);
  }

  /** Where the value of a member starts, and that the key before it is recognised. */
  lemma KeyScanned(json: Text, field: Text, i: nat, f: Field, rest: Text)
    requires FieldOk(f) && At(json, i, KeyText(f) + (ValueText(f.value) + rest))
    ensures var p := i + |KeyText(f)|;
            && At(json, p, ValueText(f.value) + rest)
            && FindFrom(json, field, i, 1) ==
               if StringText(f.key) == field then Some(p) else FindFrom(json, field, p, 1)
  {
    hide At, EndFrom, SkipWhite, StringText, FindFrom, ValueText, KeyText, ValueOk, White;
    var s, v := StringText(f.key), ValueText(f.value);
    KeyAt(json, i, f, v + rest);
    var j := i + 2 + |s| + |f.mid|;
    AKey(json, field, i, i + 1 + |s|, j);
    AtSplit(json, j + 1, f.after, v + rest);
    WhiteSkipped(json, field, j + 1, 1, f.after);
    ValueStarts(f.value);
    assert f.after + (v + rest) == (f.after + [v[0]]) + (v[1..] + rest);
    AtSplit(json, j + 1, f.after + [v[0]], v[1..] + rest);
    WhiteEnds(json, j + 1, f.after, v[0]);
  }

  /** The scanner stands before a value, or found none. */
  ghost predicate Stands(json: Text, r: Option<nat>, v: Option<Value>) {
    match v
    case None => r.None?
    case Some(value) => r.Some? && exists rest: Text :: At(json, r.value, ValueText(value) + rest)
  }

  lemma FieldScanned(json: Text, field: Text, i: nat, f: Field, c: U16, more: Text)
    requires FieldOk(f) && Ends(c) && At(json, i, FieldText(f) + ([c] + more))
    ensures if StringText(f.key) == field then Stands(json, FindFrom(json, field, i, 1), Some(f.value))
            else FindFrom(json, field, i, 1) == FindFrom(json, field, i + |FieldText(f)|, 1)
    ensures At(json, i + |FieldText(f)|, [c] + more)
  {
    hide At, StringText, FindFrom, ValueText, KeyText;
    var k, v := KeyText(f), ValueText(f.value);
    AtSplit(json, i, FieldText(f), [c] + more);
    assert FieldText(f) + ([c] + more) == f.before + (k + (v + (f.behind + ([c] + more))));
    AtSplit(json, i, f.before, k + (v + (f.behind + ([c] + more))));
    WhiteSkipped(json, field, i, 1, f.before);
    var b := i + |f.before|;
    KeyScanned(json, field, b, f, f.behind + ([c] + more));
    var p := b + |k|;
    assert v + (f.behind + ([c] + more)) == (v + (f.behind + [c])) + more;
    AtSplit(json, p, v + (f.behind + [c]), more);
    ValueSkipped(json, field, p, f.value, f.behind, c);
  }

  /** The value of the first member of that name. */
  function FirstValue(fs: seq<Field>, field: Text): Option<Value> {
    if fs == [] then None
    else if StringText(fs[0].key) == field then Some(fs[0].value)
    else FirstValue(fs[1..], field)
  }

  lemma {:induction false} FieldsScanned(json: Text, field: Text, i: nat, fs: seq<Field>, tail: Text)
    requires (forall k | 0 <= k < |fs| :: FieldOk(fs[k])) && White(tail)
    requires At(json, i, FieldsText(fs) + tail) && i + |FieldsText(fs) + tail| == |json|
    ensures Stands(json, FindFrom(json, field, i, 1), FirstValue(fs, field))
    decreases |fs|
  {
    hide At, FieldText, FieldOk, StringText, FindFrom, Stands;
    if fs == [] {
      BraceEnds(json, field, i, tail);
    } else {
      var f, rest := fs[0], fs[1..];
      assert FieldOk(f);
      if |fs| == 1 {
        assert FieldsText(fs) + tail == FieldText(f) + ([CLOSE_BRACE] + tail);
        FieldScanned(json, field, i, f, CLOSE_BRACE, tail);
        BraceEnds(json, field, i + |FieldText(f)|, tail);
      } else {
        var more := FieldsText(rest) + tail;
        assert FieldsText(fs) + tail == FieldText(f) + ([COMMA] + more);
        FieldScanned(json, field, i, f, COMMA, more);
        var j := i + |FieldText(f)|;
        AtSplit(json, j, [COMMA], more);
        CommaSkipped(json, field, j);
        FieldsScanned(json, field, j + 1, rest, tail);
      }
    }
  }

  lemma CommaSkipped(json: Text, field: Text, i: nat)
    requires At(json, i, [COMMA])
    ensures FindFrom(json, field, i, 1) == FindFrom(json, field, i + 1, 1)
  {
    hide EndFrom, SkipWhite;
    UnitsAt(json, i, [COMMA], 0);
  }

  lemma BraceEnds(json: Text, field: Text, i: nat, tail: Text)
    requires At(json, i, [CLOSE_BRACE] + tail) && White(tail) && i + 1 + |tail| == |json|
    ensures Stands(json, FindFrom(json, field, i, 1), None)
  {
    hide At, EndFrom, SkipWhite;
    AtSplit(json, i, [CLOSE_BRACE], tail);
    UnitsAt(json, i, [CLOSE_BRACE], 0);
    WhiteSkipped(json, field, i + 1, 0, tail);
  }

  lemma ValueRead(json: Text, i: nat, v: Value, rest: Text)
    requires ValueOk(v) && At(json, i, ValueText(v) + rest)
    ensures (if i >= |json| || json[i] != QUOTE then None else ReadFrom(json, i + 1, [])) ==
            if v.String? then Some(Decoded(v.glyphs)) else None
  {
    hide At, StringText, PiecesText, ReadFrom, Decoded;
    ValueStarts(v);
    UnitsAt(json, i, ValueText(v) + rest, 0);
    if v.String? {
      assert ValueText(v) + rest == [QUOTE] + (StringText(v.glyphs) + ([QUOTE] + rest));
      StringAt(json, i, v.glyphs, rest);
      StringReads(json, i + 1, v.glyphs, []);
      assert [] + Decoded(v.glyphs) == Decoded(v.glyphs);
    }
  }

  lemma {:induction false} SaysFirst(fs: seq<Field>, field: Text)
    requires forall i | 0 <= i < |fs| :: FieldOk(fs[i])
    ensures FirstValue(fs, field).Some? ==> ValueOk(FirstValue(fs, field).value)
    ensures Says(fs, field) == match FirstValue(fs, field)
                               case Some(String(gs)) => Some(Decoded(gs))
                               case _ => None
    decreases |fs|
  {
    hide StringText, Decoded;
    if fs == [] {
    } else {
      assert FieldOk(fs[0]);
      SaysFirst(fs[1..], field);
    }
  }

  /** Every JSON object, every field: the scanner answers what the document says of it. */
  lemma ScannerAnswers(d: Document, field: Text)
    requires DocumentOk(d)
    ensures StringField(DocumentText(d), field) == Says(d.fields, field)
  {
    hide DocumentText, FindFrom, ReadFrom, Says, FieldOk, ValueOk, FirstValue, At, ValueText, Decoded;
    var json := DocumentText(d);
    DocumentScanned(d, field);
    SaysFirst(d.fields, field);
    var v := FirstValue(d.fields, field);
    if v.Some? {
      var p := FindFrom(json, field, 0, 0).value;
      var rest: Text :| At(json, p, ValueText(v.value) + rest);
      ValueRead(json, p, v.value, rest);
    }
  }

  lemma DocumentScanned(d: Document, field: Text)
    requires DocumentOk(d)
    ensures Stands(DocumentText(d), FindFrom(DocumentText(d), field, 0, 0), FirstValue(d.fields, field))
  {
    hide At, FieldsText, FindFrom, FieldOk, Stands, FirstValue, White;
    var json := DocumentText(d);
    var inner := d.blank + (FieldsText(d.fields) + d.tail);
    WholeAt(json);
    AtSplit(json, 0, d.lead, [OPEN_BRACE] + inner);
    WhiteSkipped(json, field, 0, 0, d.lead);
    var i := |d.lead|;
    AtSplit(json, i, [OPEN_BRACE], inner);
    Bracketed(json, field, i, 0, true);
    AtSplit(json, i + 1, d.blank, FieldsText(d.fields) + d.tail);
    WhiteSkipped(json, field, i + 1, 1, d.blank);
    FieldsScanned(json, field, i + 1 + |d.blank|, d.fields, d.tail);
  }

  // ---- The printer prints JSON ------------------------------------------------------------------------

  /** Section 7 of RFC 8259: control characters do not stand unescaped. */
  predicate Strict(gs: seq<Glyph>) {
    StringOk(gs) && forall i | 0 <= i < |gs| :: gs[i].Plain? ==> gs[i].unit >= 0x20
  }

  /** How the printer writes a code unit. */
  function GlyphOf(c: U16): Glyph {
    if c == QUOTE || c == BACKSLASH then Short(c)
    else if c == 0x0A then Short(0x6E)
    else if c == 0x0D then Short(0x72)
    else if c == 0x09 then Short(0x74)
    else if c < 0x20 then Hex([0x30, 0x30, HexDigit(c / 16), HexDigit(c % 16)])
    else Plain(c)
  }

  lemma GlyphPrinted(c: U16)
    ensures var g := GlyphOf(c); GlyphOk(g) && GlyphText(g) == EscapeUnit(c) && Meaning(g) == c
    ensures GlyphOf(c).Plain? ==> c >= 0x20
  {
    if GlyphOf(c).Hex? {
      var d := GlyphOf(c).digits;
      assert HexValue(d[2]) == Some(c / 16) && HexValue(d[3]) == Some(c % 16);
    }
  }

  function Glyphs(s: Text): (gs: seq<Glyph>)
    ensures |gs| == |s| && forall i :: 0 <= i < |s| ==> gs[i] == GlyphOf(s[i])
  {
    seq(|s|, i requires 0 <= i < |s| => GlyphOf(s[i]))
  }

  lemma {:induction false} StringPrinted(s: Text)
    ensures var gs := Glyphs(s); Strict(gs) && StringText(gs) == Escape(s) && Decoded(gs) == s
    decreases |s|
  {
    hide GlyphOf, GlyphText, GlyphOk, EscapeUnit, Meaning;
    forall i | 0 <= i < |s|
      ensures GlyphOk(GlyphOf(s[i])) && Meaning(GlyphOf(s[i])) == s[i]
      ensures GlyphOf(s[i]).Plain? ==> GlyphOf(s[i]).unit >= 0x20
    {
      GlyphPrinted(s[i]);
      PlainPrinted(s[i]);
    }
    if s == [] {
      assert Decoded(Glyphs(s)) == s;
    } else {
      GlyphPrinted(s[0]);
      StringPrinted(s[1..]);
      assert Glyphs(s)[1..] == Glyphs(s[1..]);
      assert Decoded(Glyphs(s)) == s;
    }
  }

  lemma PlainPrinted(c: U16)
    ensures GlyphOf(c).Plain? ==> GlyphOf(c).unit == c >= 0x20
  {
  }

  function PrintedFields(es: seq<Entry>): (fs: seq<Field>)
    ensures |fs| == |es|
  {
    seq(|es|, i requires 0 <= i < |es| => Field([], Glyphs(es[i].key), [], [], String(Glyphs(es[i].value)), []))
  }

  lemma MemberPrinted(e: Entry)
    ensures var f := Field([], Glyphs(e.key), [], [], String(Glyphs(e.value)), []);
            FieldOk(f) && FieldText(f) == Member(e)
  {
    hide Glyphs, StringText, Escape;
    StringPrinted(e.key);
    StringPrinted(e.value);
  }

  lemma {:induction false} FieldsPrinted(es: seq<Entry>)
    ensures FieldsText(PrintedFields(es)) == Members(es)
    decreases |es|
  {
    hide FieldText, Member, Glyphs;
    if es == [] {
    } else {
      MemberPrinted(es[0]);
      FieldsPrinted(es[1..]);
      assert PrintedFields(es)[1..] == PrintedFields(es[1..]);
    }
  }

  /** What the printer prints is a JSON object whose members, in order, decode to the entries. */
  lemma PrinterPrintsJson(es: seq<Entry>)
    ensures var d := Document([], [], PrintedFields(es), []);
            && DocumentOk(d) && DocumentText(d) == Object(es)
            && forall i :: 0 <= i < |es| ==>
                 var f := d.fields[i];
                 && Strict(f.key) && Decoded(f.key) == es[i].key
                 && f.value.String? && Strict(f.value.glyphs) && Decoded(f.value.glyphs) == es[i].value
  {
    hide FieldOk, FieldText, Member, Glyphs, Strict, Decoded, Members, FieldsText;
    forall i | 0 <= i < |es|
      ensures FieldOk(PrintedFields(es)[i])
    {
      MemberPrinted(es[i]);
    }
    forall i | 0 <= i < |es|
      ensures var f := PrintedFields(es)[i];
              && Strict(f.key) && StringOk(f.key) && Decoded(f.key) == es[i].key
              && f.value.String? && Strict(f.value.glyphs) && StringOk(f.value.glyphs)
              && Decoded(f.value.glyphs) == es[i].value
    {
      PrintedEntry(es[i]);
    }
    FieldsPrinted(es);
    assert [] + ([OPEN_BRACE] + ([] + (Members(es) + []))) == [OPEN_BRACE] + Members(es);
  }

  lemma PrintedEntry(e: Entry)
    ensures Strict(Glyphs(e.key)) && StringOk(Glyphs(e.key)) && Decoded(Glyphs(e.key)) == e.key
    ensures Strict(Glyphs(e.value)) && StringOk(Glyphs(e.value)) && Decoded(Glyphs(e.value)) == e.value
  {
    StringPrinted(e.key);
    StringPrinted(e.value);
  }
}
