// The assignment engine inside the draw handler (bot/bot_handler.py): shuffle a
// copy of the participant list, check that nobody gives to themselves, and
// reshuffle at most 100 times. After the last failed check the final reshuffle
// is used unchecked; there is no fallback, so only "permutation" is
// unconditional.

module Assignment {

  const MaxAttempts: nat := 100

  /** Givers and receivers pair up index by index and nobody is paired with themselves. */
  predicate NoFixedPoint<T(==)>(givers: seq<T>, receivers: seq<T>) {
    |givers| == |receivers| && forall i :: 0 <= i < |givers| ==> givers[i] != receivers[i]
  }

  /** The receiver list after the shuffle calls numbered 0 .. n (random.shuffle works on the previous order). */
  function Shuffled<T>(participants: seq<T>, shuffle: (seq<T>, nat) -> seq<T>, n: nat): seq<T> {
    if n == 0 then shuffle(participants, 0) else shuffle(Shuffled(participants, shuffle, n - 1), n)
  }

  lemma {:induction false} ShuffledPermutes<T(!new)>(participants: seq<T>, shuffle: (seq<T>, nat) -> seq<T>, n: nat)
    requires forall s, k :: multiset(shuffle(s, k)) == multiset(s)
    ensures multiset(Shuffled(participants, shuffle, n)) == multiset(participants)
  {
    if n > 0 {
      ShuffledPermutes(participants, shuffle, n - 1);
    }
  }

  /**
   * The number of the first shuffle, from `k` on, that passes the check, or
   * MaxAttempts when none before that number does.
   */
  function FirstValid<T(==)>(participants: seq<T>, shuffle: (seq<T>, nat) -> seq<T>, k: nat): (r: nat)
    requires k <= MaxAttempts
    ensures k <= r <= MaxAttempts
    ensures r < MaxAttempts ==> NoFixedPoint(participants, Shuffled(participants, shuffle, r))
    ensures forall j :: k <= j < r ==> !NoFixedPoint(participants, Shuffled(participants, shuffle, j))
    decreases MaxAttempts - k
  {
    if k == MaxAttempts || NoFixedPoint(participants, Shuffled(participants, shuffle, k)) then k
    else FirstValid(participants, shuffle, k + 1)
  }

  /** The contract of FirstValid determines it: the first passing number, or MaxAttempts. */
  lemma {:induction false} FirstValidIs<T>(participants: seq<T>, shuffle: (seq<T>, nat) -> seq<T>, k: nat, j: nat)
    requires k <= j <= MaxAttempts
    requires forall i :: k <= i < j ==> !NoFixedPoint(participants, Shuffled(participants, shuffle, i))
    requires j < MaxAttempts ==> NoFixedPoint(participants, Shuffled(participants, shuffle, j))
    ensures FirstValid(participants, shuffle, k) == j
    decreases j - k
  {
    if k < j {
      FirstValidIs(participants, shuffle, k + 1, j);
    }
  }

  /**
   * The receivers the retry loop settles on: the first shuffle without a
   * self-pair, or the unchecked shuffle after the last failed check.
   */
  function Assigned<T(==, !new)>(participants: seq<T>, shuffle: (seq<T>, nat) -> seq<T>): (r: seq<T>)
    requires forall s, k :: multiset(shuffle(s, k)) == multiset(s)
    ensures multiset(r) == multiset(participants) && |r| == |participants|
    ensures FirstValid(participants, shuffle, 0) < MaxAttempts ==> NoFixedPoint(participants, r)
  {
    ShuffledPermutes(participants, shuffle, FirstValid(participants, shuffle, 0));
    var r := Shuffled(participants, shuffle, FirstValid(participants, shuffle, 0));
    assert |r| == |multiset(r)| == |multiset(participants)| == |participants|;
    r
  }

  /** The inner `for i, giver in enumerate(participants)` check with its early break. */
  method CheckAssignment<T(==)>(givers: seq<T>, receivers: seq<T>) returns (valid: bool)
    requires |givers| == |receivers|
    ensures valid <==> NoFixedPoint(givers, receivers)
  {
    valid := true;
    var i := 0;
    while i < |givers|
      invariant 0 <= i <= |givers|
      invariant valid
      invariant forall j :: 0 <= j < i ==> givers[j] != receivers[j]
    {
      if givers[i] == receivers[i] {
        valid := false;
        break;
      }
      i := i + 1;
    }
  }

  /**
   * The retry loop. `checks` counts validity checks; `valid` is true exactly
   * when the loop left through `break`.
   */
  method Assign<T(==, !new)>(participants: seq<T>, shuffle: (seq<T>, nat) -> seq<T>)
    returns (receivers: seq<T>, checks: nat, valid: bool)
    requires forall s, k :: multiset(shuffle(s, k)) == multiset(s)
    ensures multiset(receivers) == multiset(participants) && |receivers| == |participants|
    ensures 1 <= checks <= MaxAttempts
    ensures valid ==> NoFixedPoint(participants, receivers) && receivers == Shuffled(participants, shuffle, checks - 1)
    ensures !valid ==> checks == MaxAttempts && receivers == Shuffled(participants, shuffle, MaxAttempts)
    ensures forall k :: 0 <= k < (if valid then checks - 1 else checks) ==>
              !NoFixedPoint(participants, Shuffled(participants, shuffle, k))
    ensures receivers == Assigned(participants, shuffle)
    ensures valid <==> FirstValid(participants, shuffle, 0) < MaxAttempts
  {
    receivers := shuffle(participants, 0);
    var attempt := 0;
    valid := false;
    checks := 0;
    while attempt < MaxAttempts
      invariant 0 <= attempt <= MaxAttempts
      invariant checks == attempt && !valid
      invariant receivers == Shuffled(participants, shuffle, attempt)
      invariant multiset(receivers) == multiset(participants)
      invariant forall k :: 0 <= k < attempt ==> !NoFixedPoint(participants, Shuffled(participants, shuffle, k))
    {
      valid := CheckAssignment(participants, receivers);
      checks := checks + 1;
      if valid {
        break;
      }
      receivers := shuffle(receivers, attempt + 1);
      attempt := attempt + 1;
    }
    FirstValidIs(participants, shuffle, 0, if valid then checks - 1 else MaxAttempts);
  }

  /** With two people the only assignment without a self-pair is the swap. */
  lemma TwoPeopleSwap<T>(participants: seq<T>, receivers: seq<T>)
    requires |participants| == 2 && participants[0] != participants[1]
    requires multiset(receivers) == multiset(participants) && |receivers| == 2
    requires NoFixedPoint(participants, receivers)
    ensures receivers == [participants[1], participants[0]]
  {
    var a, b := participants[0], participants[1];
    assert participants == [a, b];
    assert receivers == [receivers[0], receivers[1]];
    assert receivers[0] in multiset(receivers);
    assert receivers[1] in multiset(receivers);
    assert multiset(receivers)[a] == 1;
    if receivers[1] == b {
      assert false;
    }
  }

  /**
   * The loop does not promise a derangement: a shuffle source that never moves
   * anybody exhausts all 100 checks and leaves every participant giving to
   * themselves.
   */
  function KeepOrder(s: seq<nat>, k: nat): seq<nat> { s }

  lemma {:induction false} ExhaustionKeepsSelfPairs(participants: seq<nat>, n: nat)
    requires |participants| >= 2
    ensures Shuffled(participants, KeepOrder, n) == participants
    ensures !NoFixedPoint(participants, Shuffled(participants, KeepOrder, n))
  {
    if n > 0 {
      ExhaustionKeepsSelfPairs(participants, n - 1);
    }
    assert participants[0] == Shuffled(participants, KeepOrder, n)[0];
  }
}
