/**
 The Json class of MmokitAuth.cs: a printer for flat string maps and a scanner for
 one top-level string field. Strings are UTF-16 code units, as in C#. `None`
 stands for null.
 */
module Json {
  import opened Words

  type Text = seq<U16>

  const QUOTE: U16 := 0x22
  const BACKSLASH: U16 := 0x5C
  const COLON: U16 := 0x3A
  const COMMA: U16 := 0x2C
  const OPEN_BRACE: U16 := 0x7B
  const CLOSE_BRACE: U16 := 0x7D
  const OPEN_BRACKET: U16 := 0x5B
  const CLOSE_BRACKET: U16 := 0x5D

  // ---- The printer -------------------------------------------------------------------------

  function HexDigit(d: nat): U16
    requires d < 16
  {
    if d < 10 then 0x30 + d else 0x57 + d
  }

  function EscapeUnit(c: U16): (r: Text)
    ensures |r| > 0
  {
    if c == QUOTE || c == BACKSLASH then [BACKSLASH, c]
    else if c == 0x0A then [BACKSLASH, 0x6E]
    else if c == 0x0D then [BACKSLASH, 0x72]
    else if c == 0x09 then [BACKSLASH, 0x74]
    else if c < 0x20 then [BACKSLASH, 0x75, 0x30, 0x30, HexDigit(c / 16), HexDigit(c % 16)]
    else [c]
  }

  function Escape(s: Text): Text {
    if s == [] then [] else EscapeUnit(s[0]) + Escape(s[1..])
  }

  datatype Entry = Entry(key: Text, value: Text)

  function Member(e: Entry): Text {
    [QUOTE] + (Escape(e.key) + ([QUOTE] + ([COLON] + ([QUOTE] + (Escape(e.value) + [QUOTE])))))
  }

  /** The members separated by commas, then the closing brace. */
  function Members(es: seq<Entry>): Text {
    if es == [] then [CLOSE_BRACE]
    else Member(es[0]) + (if |es| == 1 then [CLOSE_BRACE] else [COMMA] + Members(es[1..]))
  }

  function Object(es: seq<Entry>): Text {
    [OPEN_BRACE] + Members(es)
  }

  method EscapeText(s: Text) returns (r: Text)
    ensures r == Escape(s)
  {
    r := [];
    for i := 0 to |s|
      invariant r + Escape(s[i..]) == Escape(s)
    {
      assert s[i..][1..] == s[i + 1..];
      assert r + (EscapeUnit(s[i]) + Escape(s[i + 1..])) == r + EscapeUnit(s[i]) + Escape(s[i + 1..]);
      r := r + EscapeUnit(s[i]);
    }
  }

  method PrintMember(e: Entry) returns (r: Text)
    ensures r == Member(e)
  {
    var key := EscapeText(e.key);
    var value := EscapeText(e.value);
    r := [QUOTE] + (key + ([QUOTE] + ([COLON] + ([QUOTE] + (value + [QUOTE])))));
  }

  /** `Object`: a comma before every member but the first. */
  method PrintObject(es: seq<Entry>) returns (r: Text)
    ensures r == Object(es)
  {
    hide Member, Members, Remaining, Object;
    r := [OPEN_BRACE];
    var first := true;
    RemainingEnds(es);
    for i := 0 to |es|
      invariant first <==> i == 0
      invariant r + Remaining(es[i..], first) == Object(es)
    {
      ghost var rest := Remaining(es[i + 1..], false);
      var member := PrintMember(es[i]);
      RemainingStep(es[i..], first);
      assert es[i..][1..] == es[i + 1..];
      ghost var before := r;
      if !first {
        r := r + [COMMA];
      }
      assert before + ((if first then [] else [COMMA]) + (member + rest)) == r + member + rest;
      first := false;
      r := r + member;
    }
    r := r + [CLOSE_BRACE];
  }

  lemma RemainingEnds(es: seq<Entry>)
    ensures [OPEN_BRACE] + Remaining(es[0..], true) == Object(es)
    ensures Remaining([], true) == Remaining([], false) == [CLOSE_BRACE]
  {
    hide Member;
    assert es[0..] == es && [] + Members(es) == Members(es);
  }

  /** What is still to be printed. */
  ghost function Remaining(es: seq<Entry>, first: bool): Text {
    if es == [] then [CLOSE_BRACE] else (if first then [] else [COMMA]) + Members(es)
  }

  lemma RemainingStep(es: seq<Entry>, first: bool)
    requires es != []
    ensures Remaining(es, first) == (if first then [] else [COMMA]) + (Member(es[0]) + Remaining(es[1..], false))
  {
    hide Member;
  }

  // ---- The scanner -------------------------------------------------------------------------

  /** `char.IsWhiteSpace`. */
  predicate IsWhite(c: U16) {
    || 0x09 <= c <= 0x0D || c == 0x20 || c == 0x85 || c == 0xA0 || c == 0x1680 || 0x2000 <= c <= 0x200A
    || c == 0x2028 || c == 0x2029 || c == 0x202F || c == 0x205F || c == 0x3000
  }

  function SkipWhite(json: Text, i: nat): (j: nat)
    requires i <= |json|
    ensures i <= j <= |json|
    decreases |json| - i
  {
    if i < |json| && IsWhite(json[i]) then SkipWhite(json, i + 1) else i
  }

  /** The closing quote of a string whose content starts at `i`; a backslash hides the next unit. */
  function EndFrom(json: Text, i: nat): (end: Option<nat>)
    ensures end.Some? ==> i <= end.value < |json|
    decreases |json| - i
  {
    if i >= |json| then None
    else if json[i] == BACKSLASH then EndFrom(json, i + 2)
    else if json[i] == QUOTE then Some(i)
    else EndFrom(json, i + 1)
  }

  /** From `i` at nesting `depth`: where the value of the top-level key `field` starts. */
  function FindFrom(json: Text, field: Text, i: nat, depth: int): Option<nat>
    decreases |json| - i
  {
    if i >= |json| then None
    else if json[i] == OPEN_BRACE || json[i] == OPEN_BRACKET then FindFrom(json, field, i + 1, depth + 1)
    else if json[i] == CLOSE_BRACE || json[i] == CLOSE_BRACKET then FindFrom(json, field, i + 1, depth - 1)
    else if json[i] != QUOTE then FindFrom(json, field, i + 1, depth)
    else
      match EndFrom(json, i + 1)
      case None => None
      case Some(end) =>
        var j := SkipWhite(json, end + 1);
        if depth != 1 || j >= |json| || json[j] != COLON then FindFrom(json, field, end + 1, depth)
        else if json[i + 1..end] == field then Some(SkipWhite(json, j + 1))
        else FindFrom(json, field, j + 1, depth)
  }

  function HexValue(c: U16): Option<nat> {
    if 0x30 <= c <= 0x39 then Some(c - 0x30)
    else if 0x61 <= c <= 0x66 then Some(c - 0x57)
    else if 0x41 <= c <= 0x46 then Some(c - 0x37)
    else None
  }

  predicate NumberWhite(c: U16) {
    0x09 <= c <= 0x0D || c == 0x20
  }

  function LeadingWhite(s: Text): (n: nat)
    ensures n <= |s|
  {
    if s == [] || !NumberWhite(s[0]) then 0 else 1 + LeadingWhite(s[1..])
  }

  function LeadingHex(s: Text): (n: nat)
    ensures n <= |s| && forall i | 0 <= i < n :: HexValue(s[i]).Some?
  {
    if s == [] || HexValue(s[0]).None? then 0 else 1 + LeadingHex(s[1..])
  }

  function HexNumber(s: Text): (v: nat)
    requires forall i | 0 <= i < |s| :: HexValue(s[i]).Some?
    ensures v < Pow2(4 * |s|)
  {
    if s == [] then 0
    else
      Pow2Step(|s| - 1);
      16 * HexNumber(s[..|s| - 1]) + HexValue(s[|s| - 1]).value
  }

  lemma Pow2Step(n: nat)
    ensures Pow2(4 * (n + 1)) == 16 * Pow2(4 * n)
  {
    Pow2Add(4, 4 * n);
    assert Pow2(4) == 16;
  }

  /** `ushort.TryParse` of four units as a hexadecimal number: white space around it and trailing nulls are allowed. */
  function ParseHex(s: Text): Option<U16>
    requires |s| == 4
  {
    var body := s[LeadingWhite(s)..];
    var n := LeadingHex(body);
    var rest := body[n..];
    if n == 0 || exists i | LeadingWhite(rest) <= i < |rest| :: rest[i] != 0 then None
    else
      Pow2Monotone(4 * n, 16);
      Pow2Values();
      Some(HexNumber(body[..n]))
  }

  function Simple(c: U16): U16 {
    if c == 0x6E then 0x0A
    else if c == 0x72 then 0x0D
    else if c == 0x74 then 0x09
    else if c == 0x62 then 0x08
    else if c == 0x66 then 0x0C
    else c
  }

  /** The string whose content starts at `i`, behind `acc`; `None` when it is malformed. */
  function ReadFrom(json: Text, i: nat, acc: Text): Option<Text>
    decreases |json| - i
  {
    if i >= |json| then None
    else if json[i] == QUOTE then Some(acc)
    else if json[i] != BACKSLASH then ReadFrom(json, i + 1, acc + [json[i]])
    else if i + 1 >= |json| then None
    else if json[i + 1] != 0x75 then ReadFrom(json, i + 2, acc + [Simple(json[i + 1])])
    else if i + 6 > |json| || ParseHex(json[i + 2..i + 6]).None? then None
    else ReadFrom(json, i + 6, acc + [ParseHex(json[i + 2..i + 6]).value])
  }

  function StringField(json: Text, field: Text): Option<Text> {
    match FindFrom(json, field, 0, 0)
    case None => None
    case Some(i) => if i >= |json| || json[i] != QUOTE then None else ReadFrom(json, i + 1, [])
  }

  // ---- The methods ---------------------------------------------------------------------------

  method EndOfString(json: Text, start: nat) returns (end: Option<nat>)
    ensures end == EndFrom(json, start + 1)
  {
    var i: nat := start + 1;
    while i < |json|
      invariant EndFrom(json, start + 1) == EndFrom(json, i)
    {
      if json[i] == BACKSLASH {
        i := i + 2;
      } else if json[i] == QUOTE {
        return Some(i);
      } else {
        i := i + 1;
      }
    }
    end := None;
  }

  method SkipWhiteSpace(json: Text, start: nat) returns (j: nat)
    requires start <= |json|
    ensures j == SkipWhite(json, start)
  {
    j := start;
    while j < |json| && IsWhite(json[j])
      invariant j <= |json| && SkipWhite(json, start) == SkipWhite(json, j)
    {
      j := j + 1;
    }
  }

  /** `ValueStart`; the depth counter ignores everything inside strings. */
  method ValueStart(json: Text, field: Text) returns (r: Option<nat>)
    ensures r == FindFrom(json, field, 0, 0)
  {
    hide EndFrom, SkipWhite;
    var depth, i: nat := 0, 0;
    while i < |json|
      invariant FindFrom(json, field, 0, 0) == FindFrom(json, field, i, depth)
    {
      var c := json[i];
      if c == OPEN_BRACE || c == OPEN_BRACKET {
        depth := depth + 1;
      } else if c == CLOSE_BRACE || c == CLOSE_BRACKET {
        depth := depth - 1;
      } else if c == QUOTE {
        var end := EndOfString(json, i);
        if end.None? {
          return None;
        }
        var keyStart := i + 1;
        i := end.value;
        if depth == 1 {
          var j := SkipWhiteSpace(json, end.value + 1);
          if j < |json| && json[j] == COLON {
            if json[keyStart..end.value] == field {
              j := SkipWhiteSpace(json, j + 1);
              return Some(j);
            }
            i := j;
          }
        }
      }
      i := i + 1;
    }
    r := None;
  }

  /** `String`. */
  method ReadString(json: Text, field: Text) returns (r: Option<Text>)
    ensures r == StringField(json, field)
  {
    hide FindFrom, ParseHex;
    var start := ValueStart(json, field);
    if start.None? || start.value >= |json| || json[start.value] != QUOTE {
      return None;
    }
    var i: nat, sb: Text := start.value + 1, [];
    while i < |json|
      invariant ReadFrom(json, start.value + 1, []) == ReadFrom(json, i, sb)
    {
      var c := json[i];
      i := i + 1;
      if c == QUOTE {
        return Some(sb);
      }
      if c != BACKSLASH {
        sb := sb + [c];
      } else {
        if i >= |json| {
          return None;
        }
        var esc := json[i];
        i := i + 1;
        if esc == 0x75 {
          if i + 4 > |json| {
            return None;
          }
          var unit := ParseHex(json[i..i + 4]);
          if unit.None? {
            return None;
          }
          sb := sb + [unit.value];
          i := i + 4;
        } else {
          sb := sb + [Simple(esc)];
        }
      }
    }
    r := None;
  }
}
