/**
 The text keys of ReconciliationGate.cs: three numbers in decimal with colons
 between them. The key determines the numbers, and a key starts with an epoch
 and a colon exactly when that is its epoch.
 */
module PairKeys {
  import opened Words

  datatype AckedFrame = AckedFrame(epoch: U32, tick: U32, sequence: U32)

  function Digit(d: nat): char
    requires d < 10
  {
    ['0', '1', '2', '3', '4', '5', '6', '7', '8', '9'][d]
  }

  /** `uint.ToString()`. */
  function Decimal(n: nat): (s: string)
    ensures |s| > 0 && ':' !in s && (|s| == 1 <==> n < 10)
  {
    if n < 10 then [Digit(n)] else Decimal(n / 10) + [Digit(n % 10)]
  }

  function PairKey(f: AckedFrame): string {
    Decimal(f.epoch) + ":" + (Decimal(f.tick) + ":" + Decimal(f.sequence))
  }

  function Prefix(epoch: U32): string {
    Decimal(epoch) + ":"
  }

  predicate StartsWith(s: string, prefix: string) {
    |prefix| <= |s| && s[..|prefix|] == prefix
  }

  lemma {:induction false} DecimalInjective(m: nat, n: nat)
    requires Decimal(m) == Decimal(n)
    ensures m == n
    decreases m + n
  {
    var a, b := Decimal(m), Decimal(n);
    if m >= 10 && n >= 10 {
      assert a[..|a| - 1] == Decimal(m / 10) && b[..|b| - 1] == Decimal(n / 10);
      DecimalInjective(m / 10, n / 10);
      assert a[|a| - 1] == Digit(m % 10) && b[|b| - 1] == Digit(n % 10);
    } else {
      assert a[0] == Digit(m) && b[0] == Digit(n);
    }
  }

  /** Two strings cut at their first colon. */
  lemma CutAtColon(a: string, b: string, a': string, b': string)
    requires ':' !in a && ':' !in a' && a + ":" + b == a' + ":" + b'
    ensures a == a' && b == b'
  {
    var s, s' := a + ":" + b, a' + ":" + b';
    assert s[|a|] == ':' && s'[|a'|] == ':';
    assert forall i | 0 <= i < |a| :: s[i] == a[i] && a[i] in a;
    assert forall i | 0 <= i < |a'| :: s'[i] == a'[i] && a'[i] in a';
    assert |a| == |a'|;
    assert s[..|a|] == a && s'[..|a|] == a';
    assert s[|a| + 1..] == b && s'[|a| + 1..] == b';
  }

  lemma PairKeyInjective(f: AckedFrame, g: AckedFrame)
    requires PairKey(f) == PairKey(g)
    ensures f == g
  {
    hide Decimal;
    CutAtColon(Decimal(f.epoch), Decimal(f.tick) + ":" + Decimal(f.sequence),
               Decimal(g.epoch), Decimal(g.tick) + ":" + Decimal(g.sequence));
    CutAtColon(Decimal(f.tick), Decimal(f.sequence), Decimal(g.tick), Decimal(g.sequence));
    DecimalInjective(f.epoch, g.epoch);
    DecimalInjective(f.tick, g.tick);
    DecimalInjective(f.sequence, g.sequence);
  }

  /** The prefix filter keeps exactly the keys of one epoch. */
  lemma PrefixIsEpoch(f: AckedFrame, epoch: U32)
    ensures StartsWith(PairKey(f), Prefix(epoch)) <==> f.epoch == epoch
  {
    hide Decimal;
    var key, p := PairKey(f), Prefix(epoch);
    var rest := Decimal(f.tick) + ":" + Decimal(f.sequence);
    if f.epoch == epoch {
      assert key[..|p|] == p;
    }
    if StartsWith(key, p) {
      assert key == Decimal(epoch) + ":" + key[|p|..];
      CutAtColon(Decimal(f.epoch), rest, Decimal(epoch), key[|p|..]);
      DecimalInjective(f.epoch, epoch);
    }
  }
}
