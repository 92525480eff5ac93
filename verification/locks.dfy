/**
 * One lock as a value: its alphabet, its secret combination, one index into
 * the alphabet per wheel, and whether it has been opened.  These are the
 * specifications the `Session.Lock` objects are proved against.
 */
module Locks {
  import opened Charset

  datatype LockState = LockState(alphabet: string, secret: string, wheels: seq<int>, unlocked: bool)

  predicate InRange(wheels: seq<int>, n: int) {
    forall k :: 0 <= k < |wheels| ==> 0 <= wheels[k] < n
  }

  /** What setup establishes for every lock and every operation keeps. */
  predicate LockOk(l: LockState) {
    && |l.alphabet| > 0
    && Distinct(l.alphabet)
    && |l.wheels| == |l.secret|
    && InRange(l.wheels, |l.alphabet|)
    && forall k :: 0 <= k < |l.secret| ==> l.secret[k] in l.alphabet
  }

  function Zeros(n: nat): (r: seq<int>)
    ensures |r| == n && forall k :: 0 <= k < n ==> r[k] == 0
  {
    seq(n, k => 0)
  }

  /** A lock as `startGame` creates it: all wheels at index 0, shut. */
  function Fresh(alphabet: string, secret: string): (r: LockState)
    ensures !r.unlocked && r.alphabet == alphabet && r.secret == secret
    ensures |r.wheels| == |secret| && forall k :: 0 <= k < |secret| ==> r.wheels[k] == 0
    ensures |alphabet| > 0 && Distinct(alphabet) && (forall k :: 0 <= k < |secret| ==> secret[k] in alphabet) ==> LockOk(r)
  {
    LockState(alphabet, secret, Zeros(|secret|), false)
  }

  /**
   * The combination shown on the wheels, read off in wheel order: one
   * character per wheel, the one that wheel stands on, always on the wheels.
   */
  function Combination(l: LockState): (r: string)
    requires InRange(l.wheels, |l.alphabet|)
    ensures |r| == |l.wheels|
    ensures forall k :: 0 <= k < |r| ==> r[k] == l.alphabet[l.wheels[k]] && r[k] in l.alphabet
  {
    seq(|l.wheels|, k requires 0 <= k < |l.wheels| => l.alphabet[l.wheels[k]])
  }

  predicate Matches(l: LockState)
    requires InRange(l.wheels, |l.alphabet|)
  {
    Combination(l) == l.secret
  }

  /** The wheel position of a character: its first occurrence. */
  function IndexOf(a: string, c: char): (i: nat)
    requires c in a
    ensures i < |a| && a[i] == c
    ensures forall j :: 0 <= j < i ==> a[j] != c
  {
    if a[0] == c then 0 else 1 + IndexOf(a[1..], c)
  }

  /** The wheel setting that spells the secret. */
  function Solution(l: LockState): (w: seq<int>)
    requires LockOk(l)
    ensures |w| == |l.wheels| && InRange(w, |l.alphabet|)
  {
    seq(|l.secret|, k requires 0 <= k < |l.secret| => IndexOf(l.alphabet, l.secret[k]))
  }

  /**
   * Because an alphabet lists each character once, exactly one wheel setting
   * opens a lock: the one that spells its secret.
   */
  lemma {:induction false} UniqueSolution(l: LockState)
    requires LockOk(l)
    ensures Matches(l) <==> l.wheels == Solution(l)
  {
    var sol := Solution(l);
    if Matches(l) {
      forall k | 0 <= k < |l.wheels| ensures l.wheels[k] == sol[k] {
        assert l.alphabet[l.wheels[k]] == Combination(l)[k] == l.secret[k];
        assert l.alphabet[sol[k]] == l.secret[k];
      }
    }
    if l.wheels == sol {
      assert forall k :: 0 <= k < |l.wheels| ==> Combination(l)[k] == l.secret[k];
    }
  }

  /**
   * `rotateWheel` on one lock: a shut lock moves wheel `wheel` one position
   * forward (+1) or back (-1), wrapping around the alphabet; an open lock
   * does not move.
   */
  function RotateLock(l: LockState, wheel: nat, dir: int): (r: LockState)
    requires LockOk(l) && wheel < |l.wheels| && (dir == 1 || dir == -1)
    ensures LockOk(r)
    ensures r.alphabet == l.alphabet && r.secret == l.secret && r.unlocked == l.unlocked
    ensures |r.wheels| == |l.wheels|
    ensures l.unlocked ==> r == l
    ensures forall k :: 0 <= k < |l.wheels| && k != wheel ==> r.wheels[k] == l.wheels[k]
    ensures !l.unlocked && dir == 1 ==>
      r.wheels[wheel] == if l.wheels[wheel] == |l.alphabet| - 1 then 0 else l.wheels[wheel] + 1
    ensures !l.unlocked && dir == -1 ==>
      r.wheels[wheel] == if l.wheels[wheel] == 0 then |l.alphabet| - 1 else l.wheels[wheel] - 1
  {
    if l.unlocked then l
    else
      var n := |l.alphabet|;
      var v := l.wheels[wheel];
      assert n - 1 <= v + dir + n <= 2 * n;
      StepMod(v, dir, n);
      l.(wheels := l.wheels[wheel := (v + dir + n) % n])
  }

  /** The arithmetic behind one step of a wheel. */
  lemma StepMod(v: int, dir: int, n: int)
    requires 0 <= v < n && (dir == 1 || dir == -1)
    ensures dir == 1 ==> (v + dir + n) % n == if v == n - 1 then 0 else v + 1
    ensures dir == -1 ==> (v + dir + n) % n == if v == 0 then n - 1 else v - 1
  {
    var x := v + dir + n;
    if x < n {
      ModUnique(x, 0, x, n);
    } else if x < 2 * n {
      ModUnique(x, 1, x - n, n);
    } else {
      ModUnique(x, 2, 0, n);
    }
  }

  /** A turn forward followed by a turn back (or the reverse) restores the lock. */
  lemma {:induction false} RotateInverse(l: LockState, wheel: nat)
    requires LockOk(l) && wheel < |l.wheels|
    ensures RotateLock(RotateLock(l, wheel, 1), wheel, -1) == l
    ensures RotateLock(RotateLock(l, wheel, -1), wheel, 1) == l
  {
    var f := RotateLock(RotateLock(l, wheel, 1), wheel, -1);
    var b := RotateLock(RotateLock(l, wheel, -1), wheel, 1);
    assert f.wheels == l.wheels;
    assert b.wheels == l.wheels;
  }

  /** `count` forward turns of one wheel. */
  function TurnForward(l: LockState, wheel: nat, count: nat): (r: LockState)
    requires LockOk(l) && wheel < |l.wheels|
    ensures LockOk(r) && |r.wheels| == |l.wheels|
  {
    if count == 0 then l else RotateLock(TurnForward(l, wheel, count - 1), wheel, 1)
  }

  /**
   * `count` forward turns leave a shut lock's wheel at its old index plus
   * `count`, modulo the alphabet size, and touch no other wheel.
   */
  lemma {:induction false} TurnForwardPosition(l: LockState, wheel: nat, count: nat)
    requires LockOk(l) && wheel < |l.wheels| && !l.unlocked
    ensures var r := TurnForward(l, wheel, count);
      && r.wheels[wheel] == (l.wheels[wheel] + count) % |l.alphabet|
      && (forall k :: 0 <= k < |l.wheels| && k != wheel ==> r.wheels[k] == l.wheels[k])
      && r.alphabet == l.alphabet && r.secret == l.secret && !r.unlocked
  {
    var n := |l.alphabet|;
    var v := l.wheels[wheel];
    if count == 0 {
      ModUnique(v, 0, v, n);
    } else {
      TurnForwardPosition(l, wheel, count - 1);
      var p := TurnForward(l, wheel, count - 1);
      assert p.wheels[wheel] == (v + count - 1) % n;
      ModSucc(v + count - 1, n);
      assert TurnForward(l, wheel, count).wheels[wheel] == (if p.wheels[wheel] == n - 1 then 0 else p.wheels[wheel] + 1);
    }
  }

  lemma ModSucc(x: nat, n: nat)
    requires n > 0
    ensures (if x % n == n - 1 then 0 else x % n + 1) == (x + 1) % n
  {
    var q := x / n;
    var m := x % n;
    if m == n - 1 {
      ModUnique(x + 1, q + 1, 0, n);
    } else {
      ModUnique(x + 1, q, m + 1, n);
    }
  }

  lemma MulAtLeast(a: int, n: int)
    requires a >= 1 && n > 0
    ensures a * n >= n
  {
  }

  /** Quotient and remainder are determined by any decomposition with the remainder in range. */
  lemma ModUnique(y: int, q: int, r: int, n: int)
    requires n > 0 && y == q * n + r && 0 <= r < n
    ensures y % n == r && y / n == q
  {
    var q', r' := y / n, y % n;
    assert y == q' * n + r';
    assert (q - q') * n == r' - r;
    if q > q' {
      MulAtLeast(q - q', n);
    } else if q' > q {
      MulAtLeast(q' - q, n);
    }
  }

  /** A full revolution (as many turns as the alphabet has characters) is the identity. */
  lemma {:induction false} FullRevolution(l: LockState, wheel: nat)
    requires LockOk(l) && wheel < |l.wheels|
    ensures TurnForward(l, wheel, |l.alphabet|) == l
  {
    var n := |l.alphabet|;
    var r := TurnForward(l, wheel, n);
    if l.unlocked {
      UnlockedStays(l, wheel, n);
    } else {
      TurnForwardPosition(l, wheel, n);
      var v := l.wheels[wheel];
      ModUnique(v + n, 1, v, n);
      assert r.wheels[wheel] == v;
      assert r.wheels == l.wheels;
    }
  }

  lemma {:induction false} UnlockedStays(l: LockState, wheel: nat, count: nat)
    requires LockOk(l) && wheel < |l.wheels| && l.unlocked
    ensures TurnForward(l, wheel, count) == l
  {
    if count > 0 {
      UnlockedStays(l, wheel, count - 1);
    }
  }

  /**
   * The per-lock part of `resetAllWheels`: a shut lock's wheels go back to
   * index 0, an open lock keeps its winning combination on display.
   */
  function ResetLock(l: LockState): (r: LockState)
    requires LockOk(l)
    ensures LockOk(r)
    ensures r.alphabet == l.alphabet && r.secret == l.secret && r.unlocked == l.unlocked
    ensures |r.wheels| == |l.wheels|
    ensures l.unlocked ==> r == l
    ensures !l.unlocked ==> r.wheels == Zeros(|l.wheels|)
  {
    if l.unlocked then l else l.(wheels := Zeros(|l.wheels|))
  }

  /**
   * The per-lock step of `checkAllCombinations`: a shut lock whose wheels
   * spell its secret opens; an open lock is skipped and stays open.
   */
  function TryOpen(l: LockState): (r: LockState)
    requires LockOk(l)
    ensures LockOk(r)
    ensures r.alphabet == l.alphabet && r.secret == l.secret && r.wheels == l.wheels
    ensures r.unlocked <==> l.unlocked || Combination(l) == l.secret
  {
    if !l.unlocked && Matches(l) then l.(unlocked := true) else l
  }

  /** Opening is idempotent: trying an opened lock again changes nothing. */
  lemma TryOpenIdempotent(l: LockState)
    requires LockOk(l)
    ensures TryOpen(TryOpen(l)) == TryOpen(l)
  {
  }

  /** The per-lock part of `resetGame`: shut again, all wheels at index 0, same secret. */
  function Rearm(l: LockState): (r: LockState)
    requires LockOk(l)
    ensures LockOk(r)
    ensures r == Fresh(l.alphabet, l.secret)
  {
    l.(wheels := Zeros(|l.wheels|), unlocked := false)
  }
}
