/**
 * Rows of on/off class flags (the `active` class on slides, dots and filter
 * buttons) as sequences of booleans, with the "exactly one is on" discipline
 * that the carousel and the tour filter keep.
 */
module Flags {
  import opened Wrappers

  /** No flag other than the one at `k` is on (the one at `k` may be off too). */
  ghost predicate OnlyAt(s: seq<bool>, k: int) {
    forall i :: 0 <= i < |s| && s[i] ==> i == k
  }

  /** The flag at `k` is on and it is the only one. */
  ghost predicate ExactlyAt(s: seq<bool>, k: int) {
    0 <= k < |s| && s[k] && OnlyAt(s, k)
  }

  /** How many flags are on. */
  function Count(s: seq<bool>): (c: nat)
    ensures c <= |s|
  {
    if s == [] then 0 else (if s[0] then 1 else 0) + Count(s[1..])
  }

  /** `classList.remove` at `from` followed by `classList.add` at `to`. */
  function Move(s: seq<bool>, from: nat, to: nat): (r: seq<bool>)
    requires from < |s| && to < |s|
    ensures |r| == |s|
    ensures r[to]
    ensures from != to ==> !r[from]
    ensures forall i :: 0 <= i < |s| && i != from && i != to ==> r[i] == s[i]
  {
    s[from := false][to := true]
  }

  /** The first flag that is on, as `querySelector` finds it in document order. */
  function FirstOn(s: seq<bool>): (r: Option<nat>)
    ensures r.Some? ==> r.value < |s| && s[r.value] && forall j :: 0 <= j < r.value ==> !s[j]
    ensures r.None? <==> forall j :: 0 <= j < |s| ==> !s[j]
  {
    if s == [] then None
    else if s[0] then Some(0)
    else match FirstOn(s[1..])
      case None => None
      case Some(k) => Some(k + 1)
  }

  /** Moving the flag keeps the discipline: if nothing but `from` was on, exactly `to` is on after. */
  lemma MoveKeepsExactlyOne(s: seq<bool>, from: nat, to: nat)
    requires from < |s| && to < |s|
    requires OnlyAt(s, from)
    ensures ExactlyAt(Move(s, from, to), to)
  {
  }

  /** "Exactly one flag is on" said by position and said by counting agree. */
  lemma {:induction false} ExactlyAtCount(s: seq<bool>, k: int)
    requires ExactlyAt(s, k)
    ensures Count(s) == 1
  {
    if k == 0 {
      AllOffCount(s[1..]);
    } else {
      ExactlyAtCount(s[1..], k - 1);
    }
  }

  /** A row with no flag on counts zero. */
  lemma {:induction false} AllOffCount(s: seq<bool>)
    requires forall i :: 0 <= i < |s| ==> !s[i]
    ensures Count(s) == 0
  {
    if s != [] {
      AllOffCount(s[1..]);
    }
  }

  /** Conversely, a row that counts exactly one has its single flag at the first one that is on. */
  lemma {:induction false} CountOneExactlyAt(s: seq<bool>)
    requires Count(s) == 1
    ensures FirstOn(s).Some? && ExactlyAt(s, FirstOn(s).value)
  {
    if s[0] {
      CountZeroAllOff(s[1..]);
    } else {
      CountOneExactlyAt(s[1..]);
    }
  }

  /** A row that counts zero has no flag on. */
  lemma {:induction false} CountZeroAllOff(s: seq<bool>)
    requires Count(s) == 0
    ensures forall i :: 0 <= i < |s| ==> !s[i]
  {
    if s != [] {
      CountZeroAllOff(s[1..]);
    }
  }
}
