/** Message numbers: a random decimal seed, then counting up digit by digit until all nines. */
module MsgNumber {
  import opened Bytes

  const ZERO: byte := 48
  const NINE: byte := 57

  predicate Digits(s: seq<byte>) {
    forall c <- s :: 48 <= c <= 57
  }

  /** The number that a string of digits is, read as a decimal. */
  function Value(s: seq<byte>): int {
    if s == [] then 0 else 10 * Value(s[..|s| - 1]) + (s[|s| - 1] as int - 48)
  }

  function Power10(k: nat): (p: nat)
    ensures p >= 1
  {
    if k == 0 then 1 else 10 * Power10(k - 1)
  }

  function Repeat(c: byte, k: nat): (s: seq<byte>)
    ensures |s| == k && forall i :: 0 <= i < k ==> s[i] == c
  {
    seq(k, _ => c)
  }

  lemma {:induction false} ValueOfJoined(a: seq<byte>, b: seq<byte>)
    ensures Value(a + b) == Value(a) * Power10(|b|) + Value(b)
  {
    if b == [] {
      assert a + b == a;
    } else {
      var init := b[..|b| - 1];
      assert (a + b)[..|a + b| - 1] == a + init;
      ValueOfJoined(a, init);
      TimesTen(Value(a), Power10(|init|));
    }
  }

  lemma TimesTen(v: int, p: int)
    ensures 10 * (v * p) == v * (10 * p)
  {
  }

  lemma {:induction false} ValueOfRepeats(k: nat)
    ensures Value(Repeat(ZERO, k)) == 0
    ensures Value(Repeat(NINE, k)) == Power10(k) - 1
  {
    if k > 0 {
      assert Repeat(ZERO, k)[..k - 1] == Repeat(ZERO, k - 1);
      assert Repeat(NINE, k)[..k - 1] == Repeat(NINE, k - 1);
      ValueOfRepeats(k - 1);
    }
  }

  lemma {:induction false} ValueInRange(s: seq<byte>)
    requires Digits(s)
    ensures 0 <= Value(s) < Power10(|s|)
    ensures Value(s) == Power10(|s|) - 1 ==> s == Repeat(NINE, |s|)
  {
    if s != [] {
      var init := s[..|s| - 1];
      assert Digits(init) by { assert forall c :: c in init ==> c in s; }
      ValueInRange(init);
      assert s == init + [s[|s| - 1]];
      assert s[|s| - 1] in s;
    }
  }

  /** Strings of one length are determined by their values. */
  lemma {:induction false} ValueTells(s: seq<byte>, t: seq<byte>)
    requires Digits(s) && Digits(t) && |s| == |t| && Value(s) == Value(t)
    ensures s == t
  {
    if s != [] {
      var n := |s| - 1;
      assert s[n] in s && t[n] in t;
      assert Digits(s[..n]) by { assert forall c :: c in s[..n] ==> c in s; }
      assert Digits(t[..n]) by { assert forall c :: c in t[..n] ==> c in t; }
      ValueTells(s[..n], t[..n]);
      assert s == s[..n] + [s[n]] && t == t[..n] + [t[n]];
    }
  }

  /** Carrying into a digit over a tail of nines adds one. */
  lemma CarryAddsOne(before: seq<byte>, d: byte, k: nat)
    requires d < NINE
    ensures Value(before + [d + 1] + Repeat(ZERO, k)) == Value(before + [d] + Repeat(NINE, k)) + 1
  {
    ValueOfJoined(before + [d + 1], Repeat(ZERO, k));
    ValueOfJoined(before + [d], Repeat(NINE, k));
    ValueOfRepeats(k);
    assert (before + [d + 1])[..|before|] == before && (before + [d])[..|before|] == before;
    var v, p := Value(before + [d]), Power10(k);
    assert Value(before + [d + 1]) == v + 1;
    assert (v + 1) * p == v * p + p;
  }

  class MsgReqUtil {
    var nu: seq<byte>   // t_msg_req_nu
    var max: seq<byte>  // t_max_msg_req_nu

    predicate Valid()
      reads this
    {
      Digits(nu) && max == Repeat(NINE, |nu|)
    }

    constructor ()
      ensures Valid() && nu == []
    {
      nu, max := [], [];
    }

    /** Whether the next call draws a new seed. */
    predicate Exhausted()
      reads this
    {
      nu == [] || nu == max
    }

    /**
     The next number. `len` is the configured length, `random` what reading the random device gave;
     a short read returns the empty string and changes nothing.
     */
    method GenMsgNumber(len: nat, random: seq<byte>) returns (r: seq<byte>)
      requires Valid()
      modifies this
      ensures Valid()
      ensures old(Exhausted()) && |random| != len ==> r == [] && nu == old(nu)
      ensures old(Exhausted()) && |random| == len ==>
                r == nu && |r| == len && forall i :: 0 <= i < len ==> r[i] == random[i] % 10 + 48
      ensures !old(Exhausted()) ==>
                r == nu && |r| == |old(nu)| && Digits(r) && Value(r) == Value(old(nu)) + 1
    {
      if nu == [] || nu == max {
        if |random| != len {
          return [];
        }
        Seed(random);
      } else {
        Increment();
      }
      r := nu;
    }

    /** Take a digit from each random byte, and set the maximum of that length. */
    method Seed(random: seq<byte>)
      modifies this
      ensures Valid() && |nu| == |random| && forall i :: 0 <= i < |nu| ==> nu[i] == random[i] % 10 + ZERO
    {
      var res := [];
      max := [];
      for i := 0 to |random|
        invariant |res| == i && forall k :: 0 <= k < i ==> res[k] == random[k] % 10 + ZERO
        invariant max == Repeat(NINE, i)
      {
        res := res + [random[i] % 10 + ZERO];
        max := max + [NINE];
      }
      nu := res;
    }

    /** The carry loop: the last digit that is not nine goes up, the nines behind it become zeros. */
    method Increment()
      requires Valid() && !Exhausted()
      modifies this`nu
      ensures |nu| == |old(nu)| && Digits(nu) && Value(nu) == Value(old(nu)) + 1
    {
      hide Value;
      ghost var was := nu;
      var i := |nu| - 1;
      while i >= 0 && nu[i] == NINE
        invariant -1 <= i < |nu| && nu == was
        invariant forall k :: i < k < |nu| ==> nu[k] == NINE
      {
        i := i - 1;
      }
      if i >= 0 {
        var d := nu[i];
        assert d in was;
        nu := nu[i := nu[i] + 1];
        for j := i + 1 to |nu|
          invariant |nu| == |was|
          invariant forall k :: 0 <= k < |nu| ==>
                      nu[k] == if k < i then was[k] else if k == i then d + 1 else if k < j then ZERO else was[k]
        {
          nu := nu[j := ZERO];
        }
        assert nu == was[..i] + [d + 1] + Repeat(ZERO, |was| - i - 1);
        assert was == was[..i] + [d] + Repeat(NINE, |was| - i - 1);
        CarryAddsOne(was[..i], d, |was| - i - 1);
        assert forall k :: 0 <= k < |was| ==> was[k] in was;
        assert forall k :: 0 <= k < |nu| ==> ZERO <= nu[k] <= NINE;
      }
    }
  }

  // ---- runs between two seedings ------------------------------------------------------------------------

  /** What one call without a seeding does, by the contract of `GenMsgNumber`. */
  ghost predicate Follows(s: seq<byte>, t: seq<byte>) {
    && s != [] && s != Repeat(NINE, |s|)
    && |t| == |s| && Digits(t) && Value(t) == Value(s) + 1
  }

  /** The numbers given out from a seed on, up to the next seeding. */
  ghost predicate Run(numbers: seq<seq<byte>>) {
    && (forall i :: 0 <= i < |numbers| ==> Digits(numbers[i]))
    && (forall i :: 0 <= i < |numbers| - 1 ==> Follows(numbers[i], numbers[i + 1]))
  }

  lemma {:induction false} RunCounts(numbers: seq<seq<byte>>, i: nat, j: nat)
    requires Run(numbers) && i <= j < |numbers|
    ensures |numbers[j]| == |numbers[i]| && Value(numbers[j]) == Value(numbers[i]) + (j - i)
    decreases j - i
  {
    if i < j {
      RunCounts(numbers, i, j - 1);
      assert Follows(numbers[j - 1], numbers[j - 1 + 1]);
    }
  }

  /** All numbers of a run have one length, grow by one each, and are pairwise different. */
  lemma NumbersAreDistinct(numbers: seq<seq<byte>>, i: nat, j: nat)
    requires Run(numbers) && i < j < |numbers|
    ensures |numbers[i]| == |numbers[j]|
    ensures Value(numbers[i]) < Value(numbers[j]) && numbers[i] != numbers[j]
  {
    RunCounts(numbers, i, j);
  }

  /** A run cannot outlast the digits: it ends, with all nines, once the values are used up. */
  lemma RunIsBounded(numbers: seq<seq<byte>>)
    requires Run(numbers) && numbers != []
    ensures Value(numbers[0]) + |numbers| <= Power10(|numbers[0]|)
    ensures Value(numbers[0]) + |numbers| == Power10(|numbers[0]|) <==>
              numbers[|numbers| - 1] == Repeat(NINE, |numbers[0]|)
  {
    var last := numbers[|numbers| - 1];
    RunCounts(numbers, 0, |numbers| - 1);
    ValueInRange(last);
    ValueOfRepeats(|last|);
  }
}
