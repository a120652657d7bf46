/** The scanner undoes the printer, whatever the values hold. */
module JsonLaws {
  import opened Words
  import opened Endian
  import opened Json

  // ---- Escaped strings -----------------------------------------------------------------------

  /** One escaped unit is skipped as a whole: no quote in it ends the string. */
  lemma EndSkips(json: Text, i: nat, c: U16)
    requires At(json, i, EscapeUnit(c))
    ensures EndFrom(json, i) == EndFrom(json, i + |EscapeUnit(c)|)
  {
    var e := EscapeUnit(c);
    var here := json[i..i + |e|];
    assert json[i] == here[0];
    if |e| == 6 {
      assert json[i + 1] == here[1] && json[i + 2] == here[2] && json[i + 3] == here[3];
      assert json[i + 4] == here[4] && json[i + 5] == here[5];
      assert EndFrom(json, i) == EndFrom(json, i + 2);
      assert EndFrom(json, i + 2) == EndFrom(json, i + 3);
      assert EndFrom(json, i + 3) == EndFrom(json, i + 4);
      assert EndFrom(json, i + 4) == EndFrom(json, i + 5);
    }
  }

  lemma {:induction false} EndOfEscaped(json: Text, i: nat, s: Text)
    requires At(json, i, Escape(s) + [QUOTE])
    ensures EndFrom(json, i) == Some(i + |Escape(s)|)
    decreases |s|
  {
    hide EscapeUnit, At;
    AtSplit(json, i, Escape(s), [QUOTE]);
    if s == [] {
      AtIs(json, i, [QUOTE]);
      assert json[i] == json[i..i + 1][0];
    } else {
      var e := EscapeUnit(s[0]);
      AtSplit(json, i, e, Escape(s[1..]));
      EndSkips(json, i, s[0]);
      assert Escape(s) + [QUOTE] == e + (Escape(s[1..]) + [QUOTE]);
      AtSplit(json, i, e, Escape(s[1..]) + [QUOTE]);
      EndOfEscaped(json, i + |e|, s[1..]);
    }
  }

  lemma HexReadsBack(c: U16)
    requires c < 0x20
    ensures ParseHex([0x30, 0x30, HexDigit(c / 16), HexDigit(c % 16)]) == Some(c)
  {
    var s: Text := [0x30, 0x30, HexDigit(c / 16), HexDigit(c % 16)];
    AllHex(s);
    assert LeadingWhite(s) == 0 && s[0..] == s && s[..4] == s && s[4..] == [];
    assert s[..3][..2] == s[..2] && s[..2][..1] == s[..1] && s[..1][..0] == [];
    assert HexNumber(s[..1]) == 0;
    assert HexNumber(s[..2]) == 0;
    assert HexNumber(s[..3]) == c / 16;
  }

  lemma {:induction false} AllHex(s: Text)
    requires forall i | 0 <= i < |s| :: HexValue(s[i]).Some?
    ensures LeadingHex(s) == |s|
    decreases |s|
  {
    if s == [] {
    } else {
      AllHex(s[1..]);
    }
  }

  /** One escaped unit is read back as the unit. */
  lemma UnitReadsBack(json: Text, i: nat, c: U16, acc: Text)
    requires At(json, i, EscapeUnit(c))
    ensures ReadFrom(json, i, acc) == ReadFrom(json, i + |EscapeUnit(c)|, acc + [c])
  {
    hide ParseHex;
    var e := EscapeUnit(c);
    var here := json[i..i + |e|];
    assert json[i] == here[0];
    if |e| > 1 { assert json[i + 1] == here[1]; }
    if |e| == 6 {
      assert json[i + 2..i + 6] == e[2..] == [0x30, 0x30, HexDigit(c / 16), HexDigit(c % 16)];
      HexReadsBack(c);
    }
  }

  lemma {:induction false} EscapedReadsBack(json: Text, i: nat, s: Text, acc: Text)
    requires At(json, i, Escape(s) + [QUOTE])
    ensures ReadFrom(json, i, acc) == Some(acc + s)
    decreases |s|
  {
    hide EscapeUnit, At, ParseHex;
    if s == [] {
      AtIs(json, i, Escape(s) + [QUOTE]);
      assert Escape(s) + [QUOTE] == [QUOTE];
      assert json[i] == json[i..i + 1][0];
      assert acc + s == acc;
    } else {
      var e := EscapeUnit(s[0]);
      assert Escape(s) + [QUOTE] == e + (Escape(s[1..]) + [QUOTE]);
      AtSplit(json, i, e, Escape(s[1..]) + [QUOTE]);
      UnitReadsBack(json, i, s[0], acc);
      EscapedReadsBack(json, i + |e|, s[1..], acc + [s[0]]);
      assert acc + [s[0]] + s[1..] == acc + s;
    }
  }

  // ---- Members -------------------------------------------------------------------------------

  /** The first entry whose printed key is `field`. */
  function Lookup(es: seq<Entry>, field: Text): Option<Text> {
    if es == [] then None
    else if Escape(es[0].key) == field then Some(es[0].value)
    else Lookup(es[1..], field)
  }

  /** The scanner stands on the value that was looked up, or found nothing. */
  ghost predicate Found(json: Text, r: Option<nat>, value: Option<Text>) {
    match value
    case None => r == None
    case Some(v) => r.Some? && At(json, r.value, [QUOTE] + (Escape(v) + [QUOTE]))
  }

  /** Where the parts of a member stand. */
  lemma MemberAt(json: Text, i: nat, e: Entry, rest: Text)
    requires At(json, i, Member(e) + rest)
    ensures var k := i + 1 + |Escape(e.key)|;
            && At(json, i, [QUOTE]) && At(json, i + 1, Escape(e.key) + [QUOTE]) && At(json, i + 1, Escape(e.key))
            && At(json, k + 1, [COLON]) && At(json, k + 2, [QUOTE] + (Escape(e.value) + [QUOTE]))
            && At(json, k + 2, [QUOTE]) && At(json, k + 3, Escape(e.value) + [QUOTE])
            && i + |Member(e)| == k + 4 + |Escape(e.value)| && At(json, i + |Member(e)|, rest)
  {
    hide At, Escape;
    var t4 := [QUOTE] + (Escape(e.value) + [QUOTE]);
    var t3 := [COLON] + t4;
    var t2 := [QUOTE] + t3;
    AtSplit(json, i, Member(e), rest);
    AtSplit(json, i, [QUOTE], Escape(e.key) + t2);
    assert Escape(e.key) + t2 == Escape(e.key) + [QUOTE] + t3;
    AtSplit(json, i + 1, Escape(e.key) + [QUOTE], t3);
    AtSplit(json, i + 1, Escape(e.key), [QUOTE]);
    AtSplit(json, i + 2 + |Escape(e.key)|, [COLON], t4);
    AtSplit(json, i + 3 + |Escape(e.key)|, [QUOTE], Escape(e.value) + [QUOTE]);
  }

  lemma UnitAt(json: Text, i: nat, c: U16)
    requires At(json, i, [c])
    ensures i < |json| && json[i] == c
  {
    assert json[i] == json[i..i + 1][0];
  }

  /** At the top level, a member either is the one looked for or is passed over. */
  lemma MemberScanned(json: Text, field: Text, i: nat, e: Entry, rest: Text)
    requires At(json, i, Member(e) + rest) && rest != [] && !IsWhite(rest[0]) && rest[0] != COLON
    ensures if Escape(e.key) == field then Found(json, FindFrom(json, field, i, 1), Some(e.value))
            else FindFrom(json, field, i, 1) == FindFrom(json, field, i + |Member(e)|, 1)
  {
    hide At, Escape, Member, EndFrom;
    MemberAt(json, i, e, rest);
    var end := i + 1 + |Escape(e.key)|;
    UnitAt(json, i, QUOTE);
    EndOfEscaped(json, i + 1, e.key);
    UnitAt(json, end + 1, COLON);
    AtIs(json, i + 1, Escape(e.key));
    assert SkipWhite(json, end + 1) == end + 1;
    UnitAt(json, end + 2, QUOTE);
    assert SkipWhite(json, end + 2) == end + 2;
    if Escape(e.key) != field {
      ValueSkipped(json, field, end + 2, e, rest);
    }
  }

  /** A value string is not followed by a colon, so it is never taken for a key. */
  lemma ValueSkipped(json: Text, field: Text, i: nat, e: Entry, rest: Text)
    requires At(json, i, [QUOTE]) && At(json, i + 1, Escape(e.value) + [QUOTE])
    requires rest != [] && !IsWhite(rest[0]) && rest[0] != COLON && At(json, i + 2 + |Escape(e.value)|, rest)
    ensures FindFrom(json, field, i, 1) == FindFrom(json, field, i + 2 + |Escape(e.value)|, 1)
  {
    hide At, Escape, EndFrom;
    UnitAt(json, i, QUOTE);
    EndOfEscaped(json, i + 1, e.value);
    var next := i + 2 + |Escape(e.value)|;
    assert rest == [rest[0]] + rest[1..];
    AtSplit(json, next, [rest[0]], rest[1..]);
    UnitAt(json, next, rest[0]);
    assert SkipWhite(json, next) == next;
  }

  lemma {:induction false} MembersScanned(json: Text, field: Text, i: nat, es: seq<Entry>)
    requires At(json, i, Members(es)) && i + |Members(es)| == |json|
    ensures Found(json, FindFrom(json, field, i, 1), Lookup(es, field))
    decreases |es|
  {
    hide At, Escape, Member, Found;
    if es == [] {
      BraceEnds(json, field, i);
    } else {
      var rest := if |es| == 1 then [CLOSE_BRACE] else [COMMA] + Members(es[1..]);
      MemberScanned(json, field, i, es[0], rest);
      if Escape(es[0].key) != field {
        var next := i + |Member(es[0])|;
        AtSplit(json, i, Member(es[0]), rest);
        if |es| == 1 {
          assert es[1..] == [];
          BraceEnds(json, field, next);
        } else {
          AtSplit(json, next, [COMMA], Members(es[1..]));
          UnitAt(json, next, COMMA);
          assert FindFrom(json, field, next, 1) == FindFrom(json, field, next + 1, 1);
          MembersScanned(json, field, next + 1, es[1..]);
        }
      }
    }
  }

  lemma BraceEnds(json: Text, field: Text, i: nat)
    requires At(json, i, [CLOSE_BRACE]) && i + 1 == |json|
    ensures Found(json, FindFrom(json, field, i, 1), None)
  {
    UnitAt(json, i, CLOSE_BRACE);
    assert FindFrom(json, field, i + 1, 0) == None;
  }

  /** Any map, any field: the scanner returns the value printed under that key text, or nothing. */
  lemma FieldReadsBack(es: seq<Entry>, field: Text)
    ensures StringField(Object(es), field) == Lookup(es, field)
  {
    hide At, Escape, Members, Lookup;
    var json := Object(es);
    WholeAt(json);
    AtSplit(json, 0, [OPEN_BRACE], Members(es));
    UnitAt(json, 0, OPEN_BRACE);
    assert FindFrom(json, field, 0, 0) == FindFrom(json, field, 1, 1);
    MembersScanned(json, field, 1, es);
    if Lookup(es, field).Some? {
      var v, i := Lookup(es, field).value, FindFrom(json, field, 0, 0).value;
      AtSplit(json, i, [QUOTE], Escape(v) + [QUOTE]);
      UnitAt(json, i, QUOTE);
      EscapedReadsBack(json, i + 1, v, []);
      assert [] + v == v;
    }
  }

  // ---- Keys ------------------------------------------------------------------------------------

  predicate Distinct(es: seq<Entry>) {
    forall i, j | 0 <= i < j < |es| :: es[i].key != es[j].key
  }

  /** Escaping loses nothing: the printed form determines the string. */
  lemma EscapeInjective(s: Text, t: Text)
    requires Escape(s) == Escape(t)
    ensures s == t
  {
    hide Escape, ReadFrom;
    var json := Escape(s) + [QUOTE];
    WholeAt(json);
    EscapedReadsBack(json, 0, s, []);
    EscapedReadsBack(json, 0, t, []);
    assert [] + s == s && [] + t == t;
  }

  /** Distinct keys print differently, so each printed key leads to its own value. */
  lemma {:induction false} PrintedKeyFound(es: seq<Entry>, i: nat)
    requires Distinct(es) && i < |es|
    ensures Lookup(es, Escape(es[i].key)) == Some(es[i].value)
    decreases |es|
  {
    hide Escape;
    if i == 0 {
    } else {
      if Escape(es[0].key) == Escape(es[i].key) {
        EscapeInjective(es[0].key, es[i].key);
      }
      assert es[1..][i - 1] == es[i];
      PrintedKeyFound(es[1..], i - 1);
    }
  }

  lemma {:induction false} NoKey(es: seq<Entry>, field: Text)
    requires forall j | 0 <= j < |es| :: Escape(es[j].key) != field
    ensures Lookup(es, field) == None
    decreases |es|
  {
    if es == [] {
    } else {
      NoKey(es[1..], field);
    }
  }

  /** Exactly which entry answers: the one whose printed key is the field, and none if there is no such entry. */
  lemma FieldAnswered(es: seq<Entry>, field: Text)
    requires Distinct(es)
    ensures forall i | 0 <= i < |es|
        && Escape(es[i].key) == field :: StringField(Object(es), field) == Some(es[i].value)
    ensures (forall i | 0 <= i < |es| :: Escape(es[i].key) != field) <==> StringField(Object(es), field) == None
  {
    hide Escape, Object, StringField;
    FieldReadsBack(es, field);
    forall i | 0 <= i < |es| && Escape(es[i].key) == field
      ensures StringField(Object(es), field) == Some(es[i].value)
    {
      PrintedKeyFound(es, i);
    }
    if forall i | 0 <= i < |es| :: Escape(es[i].key) != field {
      NoKey(es, field);
    }
  }

  /** A key that needs escaping can be answered by another: `\"` gets the value printed under `"`. */
  lemma EscapedKeyMisread(a: Text, b: Text)
    ensures var es := [Entry([QUOTE], a), Entry([BACKSLASH, QUOTE], b)];
            Distinct(es) && StringField(Object(es), es[1].key) == Some(a)
  {
    hide Object, StringField;
    var es := [Entry([QUOTE], a), Entry([BACKSLASH, QUOTE], b)];
    assert [QUOTE as U16][1..] == [];
    assert Escape(es[0].key) == es[1].key;
    FieldAnswered(es, es[1].key);
  }

  /** With plain keys the scanner is the map: each key gives its value, any other field nothing. */
  lemma ScannerIsTheMap(es: seq<Entry>, field: Text)
    requires Distinct(es) && forall i | 0 <= i < |es| :: Escape(es[i].key) == es[i].key
    ensures forall i | 0 <= i < |es| && es[i].key == field :: StringField(Object(es), field) == Some(es[i].value)
    ensures (forall i | 0 <= i < |es| :: es[i].key != field) <==> StringField(Object(es), field) == None
  {
    hide Escape, Object, StringField;
    FieldAnswered(es, field);
  }
}
