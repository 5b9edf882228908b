/**
  `clickWithFallback`: three click strategies tried in order, each abandoned
  when one of its dispatches throws.  Whether a dispatch throws is not
  computed here; the platform says so, dispatch by dispatch.
*/
module Click {
  import opened Wrappers
  import Elements

  datatype Outcome = Completes | Throws

  /** The calls a strategy makes on the element. */
  datatype Dispatch = ElementClick | MouseClick | PointerDown | PointerUp

  /** How each dispatch behaves on the element at hand: `el.click()`, the
      `MouseEvent('click')` of the second strategy, and the three dispatches
      of the pointer sequence. */
  datatype Platform = Platform(
    click: Outcome,
    mouseClick: Outcome,
    pointerDown: Outcome,
    pointerUp: Outcome,
    pointerClick: Outcome)

  /** The result promise's value and the calls made, in order. */
  datatype ClickReport = ClickReport(ok: bool, calls: seq<Dispatch>)

  /** The dispatches of strategy `i` (0, 1 or 2) with their outcomes. */
  function Strategy(env: Platform, i: nat): seq<(Dispatch, Outcome)>
    requires i < 3
  {
    if i == 0 then [(ElementClick, env.click)]
    else if i == 1 then [(MouseClick, env.mouseClick)]
    else [(PointerDown, env.pointerDown), (PointerUp, env.pointerUp), (MouseClick, env.pointerClick)]
  }

  function Dispatches(steps: seq<(Dispatch, Outcome)>): seq<Dispatch>
  {
    seq(|steps|, j requires 0 <= j < |steps| => steps[j].0)
  }

  predicate AllComplete(steps: seq<(Dispatch, Outcome)>)
  {
    forall j :: 0 <= j < |steps| ==> steps[j].1 == Completes
  }

  /** One `try` block: dispatches run until the first that throws.  Reports
      whether the block completed and the calls it made; the calls are a
      prefix of the block's dispatches, all but a throwing last one
      completed. */
  function RunBlock(steps: seq<(Dispatch, Outcome)>): (r: (bool, seq<Dispatch>))
    ensures r.0 <==> AllComplete(steps)
    ensures r.1 <= Dispatches(steps)
    ensures r.0 ==> r.1 == Dispatches(steps)
    ensures !r.0 ==> 0 < |r.1| && steps[|r.1| - 1].1 == Throws
                     && forall j :: 0 <= j < |r.1| - 1 ==> steps[j].1 == Completes
  {
    if steps == [] then (true, [])
    else if steps[0].1 == Throws then (false, [steps[0].0])
    else
      var rest := RunBlock(steps[1..]);
      assert Dispatches(steps) == [steps[0].0] + Dispatches(steps[1..]);
      (rest.0, [steps[0].0] + rest.1)
  }

  predicate StrategyCompletes(env: Platform, i: nat)
    requires i < 3
  {
    AllComplete(Strategy(env, i))
  }

  /** `clickWithFallback(el)`. */
  function ClickWithFallback(el: Option<Elements.Element>, env: Platform): (r: ClickReport)
    ensures el.None? ==> !r.ok && r.calls == []
    ensures el.Some? ==> (r.ok <==> exists i :: 0 <= i < 3 && StrategyCompletes(env, i))
  {
    if el.None? then ClickReport(false, [])
    else
      var first := RunBlock(Strategy(env, 0));
      if first.0 then
        assert StrategyCompletes(env, 0);
        ClickReport(true, first.1)
      else
        var second := RunBlock(Strategy(env, 1));
        if second.0 then
          assert StrategyCompletes(env, 1);
          ClickReport(true, first.1 + second.1)
        else
          var third := RunBlock(Strategy(env, 2));
          assert third.0 ==> StrategyCompletes(env, 2);
          ClickReport(third.0, first.1 + second.1 + third.1)
  }

  /** The fallback chain: the first strategy that completes ends the chain,
      no later strategy makes a call, and the pointer sequence stops at its
      first throwing dispatch. */
  lemma FallbackOrder(el: Elements.Element, env: Platform)
    ensures StrategyCompletes(env, 0) ==> ClickWithFallback(Some(el), env).calls == [ElementClick]
    ensures !StrategyCompletes(env, 0) && StrategyCompletes(env, 1)
            ==> ClickWithFallback(Some(el), env).calls == [ElementClick, MouseClick]
    ensures !StrategyCompletes(env, 0) && !StrategyCompletes(env, 1)
            ==> ClickWithFallback(Some(el), env).calls == [ElementClick, MouseClick] + RunBlock(Strategy(env, 2)).1
    ensures !ClickWithFallback(Some(el), env).ok <==>
              env.click == Throws && env.mouseClick == Throws
              && (env.pointerDown == Throws || env.pointerUp == Throws || env.pointerClick == Throws)
  {
    var s0, s1 := Strategy(env, 0), Strategy(env, 1);
    assert Dispatches(s0) == [ElementClick];
    assert Dispatches(s1) == [MouseClick];
    var s2 := Strategy(env, 2);
    if AllComplete(s2) {
      assert s2[0].1 == Completes && s2[1].1 == Completes && s2[2].1 == Completes;
    }
  }

  /** The calls of the pointer sequence: all three when none throws,
      otherwise up to and including the first that throws. */
  lemma PointerSequenceCalls(env: Platform)
    ensures env.pointerDown == Throws ==> RunBlock(Strategy(env, 2)).1 == [PointerDown]
    ensures env.pointerDown == Completes && env.pointerUp == Throws
            ==> RunBlock(Strategy(env, 2)).1 == [PointerDown, PointerUp]
    ensures env.pointerDown == Completes && env.pointerUp == Completes
            ==> RunBlock(Strategy(env, 2)).1 == [PointerDown, PointerUp, MouseClick]
  {
    var s2 := Strategy(env, 2);
    assert s2[1..][1..] == [(MouseClick, env.pointerClick)];
  }
}
