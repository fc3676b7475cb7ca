/**
 The key under which active background jobs are recognized as the same work: every part is hashed
 with its decimal length and a colon in front. The hash function is not modelled; what is shown is
 that two different lists of parts never hand it the same bytes.
 */
module DedupeKey {
  import opened Wrappers
  import StringOrder

  type Bytes = seq<StringOrder.Byte>

  const COLON: StringOrder.Byte := 58
  const ZERO: StringOrder.Byte := 48

  predicate IsDigit(b: StringOrder.Byte) { ZERO <= b < ZERO + 10 }

  /** A number in decimal, most significant digit first. */
  function Decimal(n: nat): (s: Bytes)
    ensures |s| > 0 && forall b | b in s :: IsDigit(b)
  {
    if n < 10 then [ZERO + n] else Decimal(n / 10) + [ZERO + n % 10]
  }

  function Field(part: Bytes): Bytes { Decimal(|part|) + [COLON] + part }

  function Preimage(parts: seq<Bytes>): Bytes {
    if parts == [] then [] else Field(parts[0]) + Preimage(parts[1..])
  }

  /** BuildDedupeKey up to the hash: the bytes written, part after part. */
  method BuildPreimage(parts: seq<Bytes>) returns (written: Bytes)
    ensures written == Preimage(parts)
  {
    written := [];
    for i := 0 to |parts|
      invariant written + Preimage(parts[i..]) == Preimage(parts)
    {
      written := written + Decimal(|parts[i]|) + [COLON];
      written := written + parts[i];
    }
  }

  /** The bytes of a part of fewer than a hundred bytes: its length in one or two digits, a colon, and the part. */
  lemma ShortFieldIs(part: Bytes)
    requires |part| < 100
    ensures Field(part) == (if |part| < 10 then [48 + |part|] else [48 + |part| / 10, 48 + |part| % 10]) + [58] + part
  {
    assert |part| >= 10 ==> Decimal(|part| / 10) == [48 + |part| / 10];
  }

  // ----- a reader that recovers the parts -----

  // The number a run of digits stands for, continuing from `value`, and what follows it.
  function ReadNumber(s: Bytes, value: nat): (r: (nat, Bytes))
    ensures |r.1| <= |s|
    decreases |s|
  {
    if s != [] && IsDigit(s[0]) then ReadNumber(s[1..], 10 * value + (s[0] - ZERO)) else (value, s)
  }

  function Read(s: Bytes): Option<seq<Bytes>>
    decreases |s|
  {
    if s == [] then Some([]) else
    var (length, rest) := ReadNumber(s, 0);
    if rest == [] || rest[0] != COLON || |rest| - 1 < length then None else
    match Read(rest[1 + length..])
    case None => None
    case Some(parts) => Some([rest[1..1 + length]] + parts)
  }

  lemma {:induction false} ReadNumberAppends(digits: Bytes, rest: Bytes, value: nat)
    requires forall b | b in digits :: IsDigit(b)
    ensures ReadNumber(digits + rest, value) == ReadNumber(rest, ReadNumber(digits, value).0)
    decreases |digits|
  {
    if digits == [] {
      assert digits + rest == rest;
    } else {
      assert IsDigit(digits[0]) && (digits + rest)[0] == digits[0] && (digits + rest)[1..] == digits[1..] + rest;
      ReadNumberAppends(digits[1..], rest, 10 * value + (digits[0] - ZERO));
    }
  }

  lemma {:induction false} DecimalReadsBack(n: nat)
    ensures ReadNumber(Decimal(n), 0) == (n, [])
  {
    if n >= 10 {
      var last: Bytes := [ZERO + n % 10];
      DecimalReadsBack(n / 10);
      ReadNumberAppends(Decimal(n / 10), last, 0);
      assert ReadNumber(last, n / 10) == ReadNumber(last[1..], n);
    }
  }

  /** Reading back what was written recovers the parts, whatever bytes they contain. */
  lemma {:induction false} ReadsBack(parts: seq<Bytes>)
    ensures Read(Preimage(parts)) == Some(parts)
  {
    if parts != [] {
      var part, tail := parts[0], Preimage(parts[1..]);
      var s, after := Preimage(parts), [COLON] + part + tail;
      assert s == Decimal(|part|) + after;
      DecimalReadsBack(|part|);
      ReadNumberAppends(Decimal(|part|), after, 0);
      assert ReadNumber(s, 0) == (|part|, after);
      assert after[1..1 + |part|] == part && after[1 + |part|..] == tail;
      ReadsBack(parts[1..]);
      assert [part] + parts[1..] == parts;
    }
  }

  /** Different lists of parts are never hashed from the same bytes. */
  lemma PreimagesDiffer(a: seq<Bytes>, b: seq<Bytes>)
    ensures Preimage(a) == Preimage(b) <==> a == b
  {
    ReadsBack(a);
    ReadsBack(b);
  }
}
