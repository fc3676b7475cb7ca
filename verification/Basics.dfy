/** Small shared vocabulary: optional values, and the order Go puts on strings. */
module Wrappers {
  datatype Option<+T> = None | Some(value: T)

  function Min(a: int, b: int): int { if a <= b then a else b }

  function Max(a: int, b: int): int { if a >= b then a else b }

  lemma EmptyTogether<T(!new)>(a: seq<T>, b: seq<T>)
    requires forall x :: x in a <==> x in b
    ensures a == [] <==> b == []
  {
    if a != [] { assert a[0] in b; }
    if b != [] { assert b[0] in a; }
  }

  lemma InitOrLast<T>(s: seq<T>, x: T)
    requires s != []
    ensures x in s <==> x in s[..|s| - 1] || x == s[|s| - 1]
  {
    assert s == s[..|s| - 1] + [s[|s| - 1]];
  }

  lemma HeadOrTail<T>(s: seq<T>, x: T)
    requires s != []
    ensures x in s <==> x == s[0] || x in s[1..]
  {
    assert s == [s[0]] + s[1..];
  }

  /** Lists with the same members and the same head, which occurs once, have tails with the same members. */
  lemma SameTails<T(!new)>(a: seq<T>, b: seq<T>)
    requires a != [] && b != [] && a[0] == b[0] && a[0] !in a[1..] && b[0] !in b[1..]
    requires forall x :: x in a <==> x in b
    ensures forall x :: x in a[1..] <==> x in b[1..]
  {
    forall x
      ensures x in a[1..] <==> x in b[1..]
    {
      HeadOrTail(a, x);
      HeadOrTail(b, x);
    }
  }

  lemma TakeOneMore<T>(s: seq<T>, i: nat)
    requires i < |s|
    ensures s[..i + 1] == s[..i] + [s[i]]
  {
  }
}

/**
 Go compares strings byte by byte. Several parts of the model only need that order, so they carry
 a string's rank instead of the string: a real number in [0, 1) that is smaller exactly when the
 string is smaller. The lemmas below show that nothing is lost by doing so.
 */
module StringOrder {
  type Byte = n: int | 0 <= n < 256

  // The place of a byte string in Go's order on strings; the empty string has rank 0.
  type Rank = real

  /** Go's `<` on strings. */
  predicate Less(s: seq<Byte>, t: seq<Byte>) {
    if t == [] then false
    else if s == [] then true
    else if s[0] != t[0] then s[0] < t[0]
    else Less(s[1..], t[1..])
  }

  ghost function RankOf(s: seq<Byte>): (r: Rank)
    ensures 0.0 <= r < 1.0
    ensures r == 0.0 <==> s == []
  {
    if s == [] then 0.0 else (s[0] as real + 1.0 + RankOf(s[1..])) / 257.0
  }

  /** Comparing ranks is comparing strings, and different strings have different ranks. */
  lemma {:induction false} RankIsOrderEmbedding(s: seq<Byte>, t: seq<Byte>)
    ensures RankOf(s) < RankOf(t) <==> Less(s, t)
    ensures RankOf(s) == RankOf(t) <==> s == t
  {
    if s != [] && t != [] {
      RankIsOrderEmbedding(s[1..], t[1..]);
      assert s == [s[0]] + s[1..] && t == [t[0]] + t[1..];
      var x, y := s[0] as real + 1.0, t[0] as real + 1.0;
      if s[0] < t[0] {
        assert x + 1.0 <= y;
      } else if t[0] < s[0] {
        assert y + 1.0 <= x;
      }
    }
  }
}

/** The severities a scanner reports, in any letter case; any other word ranks lowest. */
module Severity {
  // Upper case, as far as it can lead to one of the words below: besides a to z, the dotless i and the
  // long s are the characters whose upper-case form is a plain letter.
  function ToUpper(s: string): (u: string)
    ensures |u| == |s|
  {
    seq(|s|, i requires 0 <= i < |s| =>
      if 'a' <= s[i] <= 'z' then s[i] - 'a' + 'A'
      else if s[i] == '\U{0131}' then 'I'
      else if s[i] == '\U{017F}' then 'S'
      else s[i])
  }

  function SeverityRank(severity: string): nat {
    var word := ToUpper(severity);
    if word == "CRITICAL" then 4
    else if word == "HIGH" then 3
    else if word == "MEDIUM" then 2
    else if word == "LOW" then 1
    else 0
  }

  // The characters that stand for a capital letter.
  predicate Spells(c: char, capital: char) {
    || c == capital
    || ('A' <= capital <= 'Z' && c as int == capital as int + 32)
    || (capital == 'I' && c == '\U{0131}')
    || (capital == 'S' && c == '\U{017F}')
  }

  ghost predicate Reads(s: string, word: string) {
    |s| == |word| && forall i | 0 <= i < |word| :: Spells(s[i], word[i])
  }

  lemma UpperReads(s: string, word: string)
    requires forall i | 0 <= i < |word| :: 'A' <= word[i] <= 'Z'
    ensures ToUpper(s) == word <==> Reads(s, word)
  {
    var u := ToUpper(s);
    if u == word {
      forall i | 0 <= i < |word|
        ensures Spells(s[i], word[i])
      {
        assert u[i] == word[i];
      }
    }
    if Reads(s, word) {
      forall i | 0 <= i < |word|
        ensures u[i] == word[i]
      {
        assert Spells(s[i], word[i]);
      }
    }
  }

  /** Critical ranks above high, high above medium, medium above low, and low above any other word. */
  lemma SeverityScale(s: string)
    ensures SeverityRank(s) == 4 <==> Reads(s, "CRITICAL")
    ensures SeverityRank(s) == 3 <==> Reads(s, "HIGH")
    ensures SeverityRank(s) == 2 <==> Reads(s, "MEDIUM")
    ensures SeverityRank(s) == 1 <==> Reads(s, "LOW")
    ensures SeverityRank(s) <= 4
  {
    UpperReads(s, "CRITICAL");
    UpperReads(s, "HIGH");
    UpperReads(s, "MEDIUM");
    UpperReads(s, "LOW");
  }
}
