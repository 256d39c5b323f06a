/**
 * normalise_ticker: the canonical instrument label carried alongside the raw
 * column label. The label is uppercased, cut before the earliest of the five
 * separators, and stripped of every character that is not alphanumeric.
 * Character classes are those of ASCII.
 */
module Ticker {

  /** The separators, in the order the source's loop visits them. */
  const Separators: seq<char> := [' ', '-', '/', '.', '_']

  /** The same separators as a set. */
  const SeparatorSet: set<char> := {' ', '-', '/', '.', '_'}

  predicate IsLower(c: char) { 'a' <= c <= 'z' }

  predicate IsUpper(c: char) { 'A' <= c <= 'Z' }

  predicate IsDigit(c: char) { '0' <= c <= '9' }

  /** str.isalnum on ASCII characters. */
  predicate IsAlnum(c: char) { IsLower(c) || IsUpper(c) || IsDigit(c) }

  /** str.upper on one ASCII character; any other character is left as it is. */
  function UpperChar(c: char): (u: char)
    ensures !IsLower(u)
    ensures IsAlnum(u) <==> IsAlnum(c)
    ensures !IsLower(c) ==> u == c
    ensures IsLower(c) ==> IsUpper(u) && u as int - 'A' as int == c as int - 'a' as int
  {
    if IsLower(c) then (c as int - 32) as char else c
  }

  /** str.upper on a whole label. */
  function Upper(s: string): (r: string)
    ensures |r| == |s|
    ensures forall i :: 0 <= i < |s| ==> r[i] == UpperChar(s[i])
  {
    seq(|s|, i requires 0 <= i < |s| => UpperChar(s[i]))
  }

  /**
   * The longest prefix of t that holds no character of stops: t is cut before
   * the earliest stop character. With stops == {d} this is t.split(d)[0].
   */
  function PrefixBefore(t: string, stops: set<char>): (r: string)
    ensures |r| <= |t| && r == t[..|r|]
    ensures forall i :: 0 <= i < |r| ==> r[i] !in stops
    ensures |r| == |t| || t[|r|] in stops
  {
    if t == [] || t[0] in stops then [] else [t[0]] + PrefixBefore(t[1..], stops)
  }

  /** The characters of t that are alphanumeric, in order (the join over the comprehension). */
  function KeepAlnum(t: string): (r: string)
    ensures |r| <= |t|
    ensures forall i :: 0 <= i < |r| ==> IsAlnum(r[i]) && r[i] in t
    ensures forall i :: 0 <= i < |t| && IsAlnum(t[i]) ==> t[i] in r
    ensures (forall i :: 0 <= i < |t| ==> IsAlnum(t[i])) ==> r == t
  {
    if t == [] then [] else (if IsAlnum(t[0]) then [t[0]] else []) + KeepAlnum(t[1..])
  }

  /** The join keeps one alphanumeric character and drops any other. */
  lemma KeepAlnumOne(c: char)
    ensures KeepAlnum([c]) == if IsAlnum(c) then [c] else []
  {
    assert [c][1..] == [];
  }

  /** The join works piece by piece, so it keeps the kept characters in order and with their repeats. */
  lemma {:induction false} KeepAlnumAppend(a: string, b: string)
    ensures KeepAlnum(a + b) == KeepAlnum(a) + KeepAlnum(b)
  {
    if a != [] {
      var head := if IsAlnum(a[0]) then [a[0]] else [];
      assert (a + b)[0] == a[0];
      assert (a + b)[1..] == a[1..] + b;
      assert KeepAlnum(a + b) == head + KeepAlnum(a[1..] + b);
      assert KeepAlnum(a) == head + KeepAlnum(a[1..]);
      KeepAlnumAppend(a[1..], b);
    } else {
      assert a + b == b;
    }
  }

  /** Reference definition: uppercase, cut before the earliest separator, keep alphanumerics. */
  function Normalise(s: string): string
  {
    KeepAlnum(PrefixBefore(Upper(s), SeparatorSet))
  }

  /** Cutting before one set of stops and then before another cuts before either. */
  lemma {:induction false} PrefixBeforeTwice(t: string, s1: set<char>, s2: set<char>)
    ensures PrefixBefore(PrefixBefore(t, s1), s2) == PrefixBefore(t, s1 + s2)
  {
    if t != [] && t[0] !in s1 {
      PrefixBeforeTwice(t[1..], s1, s2);
      assert ([t[0]] + PrefixBefore(t[1..], s1))[1..] == PrefixBefore(t[1..], s1);
    }
  }

  /** The canonical label holds only uppercase letters and digits. */
  lemma NormaliseAlphabet(s: string)
    ensures forall i :: 0 <= i < |Normalise(s)| ==> IsUpper(Normalise(s)[i]) || IsDigit(Normalise(s)[i])
  {
    var u := Upper(s);
    var p := PrefixBefore(u, SeparatorSet);
    forall i | 0 <= i < |Normalise(s)|
      ensures IsUpper(Normalise(s)[i]) || IsDigit(Normalise(s)[i])
    {
      var c := Normalise(s)[i];
      assert c in p;
      var j :| 0 <= j < |p| && p[j] == c;
      assert c == u[j];
    }
  }

  /** The canonical label is never longer than the raw one (it may be empty). */
  lemma NormaliseNoLonger(s: string)
    ensures |Normalise(s)| <= |s|
  {
  }

  /** A label made of uppercase letters and digits is its own canonical form. */
  lemma {:induction false} NormaliseFixed(s: string)
    requires forall i :: 0 <= i < |s| ==> IsUpper(s[i]) || IsDigit(s[i])
    ensures Normalise(s) == s
  {
    var u := Upper(s);
    assert u == s;
    var p := PrefixBefore(u, SeparatorSet);
    assert |p| == |u|;
  }

  /** Normalising twice is normalising once. */
  lemma NormaliseIdempotent(s: string)
    ensures Normalise(Normalise(s)) == Normalise(s)
  {
    NormaliseAlphabet(s);
    NormaliseFixed(Normalise(s));
  }

  /** Uppercasing commutes with concatenation. */
  lemma UpperConcat(a: string, b: string)
    ensures Upper(a + b) == Upper(a) + Upper(b)
  {
  }

  /** Whatever follows a stop character is cut away. */
  lemma {:induction false} PrefixBeforeStop(p: string, c: char, q: string, stops: set<char>)
    requires c in stops
    ensures PrefixBefore(p + [c] + q, stops) == PrefixBefore(p, stops)
  {
    if p != [] {
      assert (p + [c] + q)[0] == p[0];
      assert (p + [c] + q)[1..] == p[1..] + [c] + q;
      PrefixBeforeStop(p[1..], c, q, stops);
    }
  }

  /** The label is cut at a separator: nothing after it reaches the canonical form. */
  lemma NormaliseCutsAtSeparator(p: string, c: char, q: string)
    requires c in SeparatorSet
    ensures Normalise(p + [c] + q) == Normalise(p)
  {
    UpperConcat(p + [c], q);
    UpperConcat(p, [c]);
    assert Upper([c]) == [c];
    PrefixBeforeStop(Upper(p), c, Upper(q), SeparatorSet);
  }

  /** An alphanumeric ticker followed by a separator and any suffix normalises to the uppercased ticker. */
  lemma NormaliseAlnumPrefix(p: string, c: char, q: string)
    requires forall i :: 0 <= i < |p| ==> IsAlnum(p[i])
    requires c in SeparatorSet
    ensures Normalise(p + [c] + q) == Upper(p)
  {
    NormaliseCutsAtSeparator(p, c, q);
    var u := Upper(p);
    assert forall i :: 0 <= i < |u| ==> IsAlnum(u[i]);
    assert |PrefixBefore(u, SeparatorSet)| == |u|;
  }

  /**
   * normalise_ticker as the source writes it: uppercase, then split on each of
   * the five separators in turn keeping the first piece, then keep the
   * alphanumerics. Its result is the reference definition's.
   */
  method NormaliseTicker(raw: string) returns (r: string)
    ensures r == Normalise(raw)
  {
    var t := Upper(raw);
    ghost var seen: set<char> := {};
    for k := 0 to |Separators|
      invariant seen == set j | 0 <= j < k :: Separators[j]
      invariant t == PrefixBefore(Upper(raw), seen)
    {
      PrefixBeforeTwice(Upper(raw), seen, {Separators[k]});
      t := PrefixBefore(t, {Separators[k]});
      seen := seen + {Separators[k]};
    }
    assert seen == SeparatorSet by {
      assert Separators[0] in seen && Separators[1] in seen && Separators[2] in seen;
      assert Separators[3] in seen && Separators[4] in seen;
    }
    r := KeepAlnum(t);
  }
}
