/**
  The two operations on java.lang.String that the exchange-rate parser relies on:
  String.toUpperCase(Locale.US), which turns a response key into a currency symbol,
  and String.compareTo, the natural order a TreeMap<String, _> keeps its keys in.
  Upper-casing is modelled on ASCII letters only; every other character is left as it is.
 */
module JavaStrings {

  /** The upper-case alphabet, the independent reference for UpperCase below. */
  const CAPITALS: string := "ABCDEFGHIJKLMNOPQRSTUVWXYZ"

  predicate IsLowerAscii(c: char) {
    'a' <= c <= 'z'
  }

  /** Character.toUpperCase, restricted to ASCII. */
  function UpperCase(c: char): (u: char)
    ensures !IsLowerAscii(u)
    ensures IsLowerAscii(c) ==> u == CAPITALS[c as int - 'a' as int]
    ensures !IsLowerAscii(c) ==> u == c
  {
    if IsLowerAscii(c) then (c as int - 'a' as int + 'A' as int) as char else c
  }

  /** String.toUpperCase(Locale.US) on ASCII text: the same length, every character upper-cased. */
  function ToUpperCase(s: string): (r: string)
    ensures |r| == |s|
    ensures forall i :: 0 <= i < |s| ==> r[i] == UpperCase(s[i])
    ensures forall i :: 0 <= i < |r| ==> !IsLowerAscii(r[i])
  {
    if s == [] then [] else [UpperCase(s[0])] + ToUpperCase(s[1..])
  }

  /** Upper-casing twice is upper-casing once: a symbol is already in canonical form. */
  lemma {:induction false} ToUpperCaseIdempotent(s: string)
    ensures ToUpperCase(ToUpperCase(s)) == ToUpperCase(s)
  {
    var u := ToUpperCase(s);
    assert forall i :: 0 <= i < |u| ==> ToUpperCase(u)[i] == u[i];
  }

  /** Two keys name the same symbol exactly when they agree letter by letter up to ASCII case. */
  lemma {:induction false} SameSymbolIffEqualIgnoringCase(a: string, b: string)
    ensures ToUpperCase(a) == ToUpperCase(b)
        <==> |a| == |b| && forall i :: 0 <= i < |a| ==> UpperCase(a[i]) == UpperCase(b[i])
  {
    var ua, ub := ToUpperCase(a), ToUpperCase(b);
    if |a| == |b| && forall i :: 0 <= i < |a| ==> UpperCase(a[i]) == UpperCase(b[i]) {
      assert forall i :: 0 <= i < |ua| ==> ua[i] == ub[i];
    }
  }

  /** a is a proper prefix of b. */
  predicate ProperPrefix(a: string, b: string) {
    |a| < |b| && a == b[..|a|]
  }

  /** a and b agree before position k, and at k the character of a is the smaller. */
  predicate FirstDifferenceBelow(a: string, b: string, k: nat) {
    k < |a| && k < |b| && a[..k] == b[..k] && a[k] < b[k]
  }

  /** Strings that share a proper prefix or a non-empty common prefix start with the same character. */
  lemma HeadsAgreeBeforeDifference(a: string, b: string)
    requires a != [] && b != []
    ensures ProperPrefix(a, b) ==> a[0] == b[0]
    ensures forall k: nat :: FirstDifferenceBelow(a, b, k) && k > 0 ==> a[0] == b[0]
  {
    forall k: nat | FirstDifferenceBelow(a, b, k) && k > 0 ensures a[0] == b[0] {
      assert a[..k][0] == b[..k][0];
    }
    if ProperPrefix(a, b) {
      assert b[..|a|][0] == b[0];
    }
  }

  /** When the first characters agree, the comparison is that of the tails. */
  lemma TailsDecide(a: string, b: string)
    requires a != [] && b != [] && a[0] == b[0]
    ensures ProperPrefix(a, b) <==> ProperPrefix(a[1..], b[1..])
    ensures (exists k: nat :: FirstDifferenceBelow(a, b, k))
        <==> (exists k: nat :: FirstDifferenceBelow(a[1..], b[1..], k))
  {
    assert a == [a[0]] + a[1..] && b == [b[0]] + b[1..];
    if ProperPrefix(a[1..], b[1..]) {
      assert b[..|a|] == [b[0]] + b[1..][..|a| - 1];
    }
    if ProperPrefix(a, b) {
      assert a[1..] == b[..|a|][1..];
    }
    if exists k: nat :: FirstDifferenceBelow(a, b, k) {
      var k: nat :| FirstDifferenceBelow(a, b, k);
      assert k > 0;
      assert a[1..][..k - 1] == a[..k][1..] && b[1..][..k - 1] == b[..k][1..];
      assert FirstDifferenceBelow(a[1..], b[1..], k - 1);
    }
    if exists k: nat :: FirstDifferenceBelow(a[1..], b[1..], k) {
      var k: nat :| FirstDifferenceBelow(a[1..], b[1..], k);
      assert a[..k + 1] == [a[0]] + a[1..][..k] && b[..k + 1] == [b[0]] + b[1..][..k];
      assert FirstDifferenceBelow(a, b, k + 1);
    }
  }

  /**
    String.compareTo(a, b) < 0: a is a proper prefix of b, or at the first position where
    they differ the character of a is the smaller.
   */
  predicate Less(a: string, b: string): (less: bool)
    ensures less <==> ProperPrefix(a, b) || exists k: nat :: FirstDifferenceBelow(a, b, k)
    decreases |a|
  {
    if a == [] then
      assert b != [] ==> b[..0] == a;
      b != []
    else if b == [] then false
    else if a[0] < b[0] then
      assert FirstDifferenceBelow(a, b, 0);
      true
    else if a[0] == b[0] then
      TailsDecide(a, b);
      Less(a[1..], b[1..])
    else
      HeadsAgreeBeforeDifference(a, b);
      false
  }

  lemma {:induction false} LessIrreflexive(a: string)
    ensures !Less(a, a)
    decreases |a|
  {
    if a != [] {
      LessIrreflexive(a[1..]);
    }
  }

  lemma {:induction false} LessTransitive(a: string, b: string, c: string)
    requires Less(a, b) && Less(b, c)
    ensures Less(a, c)
    decreases |a|
  {
    if a != [] && a[0] == b[0] && b[0] == c[0] {
      LessTransitive(a[1..], b[1..], c[1..]);
    }
  }

  /** Any two different strings are ordered one way: the order is total. */
  lemma {:induction false} LessConnected(a: string, b: string)
    requires a != b
    ensures Less(a, b) || Less(b, a)
    decreases |a|
  {
    if a != [] && b != [] && a[0] == b[0] {
      assert a == [a[0]] + a[1..] && b == [b[0]] + b[1..];
      LessConnected(a[1..], b[1..]);
    }
  }

  lemma {:induction false} LessAsymmetric(a: string, b: string)
    ensures Less(a, b) ==> !Less(b, a)
    decreases |a|
  {
    if a != [] && b != [] && a[0] == b[0] {
      LessAsymmetric(a[1..], b[1..]);
    }
  }
}
