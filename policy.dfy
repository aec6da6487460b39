/** The service-policy accordion (frontend/src/components/OurPolicy.jsx): the index of the open
    policy, or none. */
module Policy {
  import opened Base

  /** The number of entries in `policyData`. */
  const PolicyCount: nat := 3

  /** `togglePolicy(index)`: `prev === index ? null : index`. */
  function TogglePolicy(open: Option<nat>, index: nat): (next: Option<nat>)
    ensures open == Some(index) ==> next == None
    ensures open != Some(index) ==> next == Some(index)
  {
    if open == Some(index) then None else Some(index)
  }

  /** `isOpen = openIndex === index` for each policy card the page renders. */
  function Expanded(open: Option<nat>, n: nat): (flags: seq<bool>)
    ensures |flags| == n
    ensures forall i :: 0 <= i < n ==> (flags[i] <==> open == Some(i))
  {
    seq(n, i => open == Some(i))
  }

  /** The number of cards rendered open. */
  function CountOpen(flags: seq<bool>): nat {
    if flags == [] then 0
    else CountOpen(flags[..|flags| - 1]) + (if flags[|flags| - 1] then 1 else 0)
  }

  /** Exactly one card is open when the open index is one of the cards, and none otherwise; so at
      most one policy is ever open. */
  lemma {:induction false} AtMostOneOpen(open: Option<nat>, n: nat)
    ensures CountOpen(Expanded(open, n)) == if open.Some? && open.value < n then 1 else 0
  {
    if n > 0 {
      AtMostOneOpen(open, n - 1);
      assert Expanded(open, n)[..n - 1] == Expanded(open, n - 1);
    }
  }

  /** The state after a series of clicks. */
  function Clicks(open: Option<nat>, clicked: seq<nat>): Option<nat>
    decreases |clicked|
  {
    if clicked == [] then open
    else Clicks(TogglePolicy(open, clicked[0]), clicked[1..])
  }

  /** Clicking only the rendered cards keeps the open index on a rendered card, so exactly one
      or no card is open after any series of clicks. */
  lemma {:induction false} ClicksStayOnCards(open: Option<nat>, clicked: seq<nat>)
    requires open.Some? ==> open.value < PolicyCount
    requires forall i :: 0 <= i < |clicked| ==> clicked[i] < PolicyCount
    ensures var last := Clicks(open, clicked); last.Some? ==> last.value < PolicyCount
    ensures CountOpen(Expanded(Clicks(open, clicked), PolicyCount)) <= 1
    decreases |clicked|
  {
    AtMostOneOpen(Clicks(open, clicked), PolicyCount);
    if clicked != [] {
      ClicksStayOnCards(TogglePolicy(open, clicked[0]), clicked[1..]);
    }
  }

  /** From all closed, clicking the same card twice closes everything again. */
  lemma ClickTwiceFromClosed(index: nat)
    ensures Clicks(None, [index, index]) == None
  {
    var clicks := [index, index];
    assert clicks[1..] == [index] && [index][1..] == [];
    assert Clicks(None, clicks) == Clicks(Some(index), [index]);
    assert Clicks(Some(index), [index]) == Clicks(None, []);
  }
}
