/** The list cursor: `App::next` and `App::previous` on the selected index of the list state. */
module Selection {
  import opened Options

  /** `next`: on an empty list nothing changes; otherwise step forward, wrapping from the
      last index (or any index beyond it) to 0, and start at 0 when nothing is selected. */
  function Next(selected: Option<nat>, len: nat): (r: Option<nat>)
    ensures len == 0 ==> r == selected
    ensures len > 0 ==> r.Some? && r.value < len
    ensures len > 0 && selected.Some? && selected.value < len - 1 ==> r == Some(selected.value + 1)
    ensures len > 0 && selected.Some? && selected.value >= len - 1 ==> r == Some(0)
    ensures len > 0 && selected.None? ==> r == Some(0)
  {
    if len == 0 then selected
    else match selected
      case None => Some(0)
      case Some(i) => if i >= len - 1 then Some(0) else Some(i + 1)
  }

  /** `previous`: on an empty list nothing changes; otherwise step back, wrapping from 0 to
      the last index, and start at 0 when nothing is selected. A stale index beyond the end
      is only decremented, so it can stay out of range. */
  function Previous(selected: Option<nat>, len: nat): (r: Option<nat>)
    ensures len == 0 ==> r == selected
    ensures len > 0 ==> r.Some?
    ensures len > 0 && selected.Some? && selected.value <= len ==> r.value < len
    ensures len > 0 && selected.Some? && selected.value > len ==> r.value >= len
    ensures len > 0 && selected.None? ==> r == Some(0)
    ensures len > 0 && selected == Some(0) ==> r == Some(len - 1)
    ensures len > 0 && selected.Some? && selected.value > 0 ==> r == Some(selected.value - 1)
  {
    if len == 0 then selected
    else match selected
      case None => Some(0)
      case Some(i) => if i == 0 then Some(len - 1) else Some(i - 1)
  }

  /** On an index in range, `previous` undoes `next` and `next` undoes `previous`. */
  lemma NextPreviousInverse(i: nat, len: nat)
    requires i < len
    ensures Previous(Next(Some(i), len), len) == Some(i)
    ensures Next(Previous(Some(i), len), len) == Some(i)
  {
  }

  /** `next` applied `k` times. */
  function NextTimes(selected: Option<nat>, len: nat, k: nat): Option<nat>
  {
    if k == 0 then selected else Next(NextTimes(selected, len, k - 1), len)
  }

  /** From index `i`, `k` presses of `next` that stay within the list walk forward `k` rows. */
  lemma {:induction false} NextTimesForward(i: nat, len: nat, k: nat)
    requires i + k < len
    ensures NextTimes(Some(i), len, k) == Some(i + k)
  {
    if k > 0 {
      NextTimesForward(i, len, k - 1);
    }
  }

  /** Pressing `next` `a + b` times is pressing it `a` times, then `b` times. */
  lemma {:induction false} NextTimesAdd(selected: Option<nat>, len: nat, a: nat, b: nat)
    ensures NextTimes(selected, len, a + b) == NextTimes(NextTimes(selected, len, a), len, b)
  {
    if b > 0 {
      NextTimesAdd(selected, len, a, b - 1);
    }
  }

  /** Pressing `next` once per row brings the cursor back to where it started. */
  lemma NextFullCircle(i: nat, len: nat)
    requires i < len
    ensures NextTimes(Some(i), len, len) == Some(i)
  {
    NextTimesAdd(Some(i), len, len - 1 - i, i + 1);
    NextTimesForward(i, len, len - 1 - i);
    NextTimesAdd(Some(len - 1), len, 1, i);
    assert NextTimes(Some(len - 1), len, 1) == Some(0);
    NextTimesForward(0, len, i);
  }
}
