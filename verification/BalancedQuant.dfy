/** The balanced recommendation: `balanced_quant` of src/config/models_cmd.rs, on the options alone. */
module BalancedQuant {
  import opened Prelude
  import opened ModelOptions

  /** The least and the largest size on offer. */
  ghost predicate Extremes(options: seq<ModelOption>, lo: nat, hi: nat) {
    && (exists o :: o in options && o.bytes == lo)
    && (exists o :: o in options && o.bytes == hi)
    && forall o :: o in options ==> lo <= o.bytes <= hi
  }

  /** Halved before adding, so that the sum cannot overflow. */
  function Midpoint(lo: nat, hi: nat): nat {
    lo / 2 + hi / 2
  }

  function Distance(a: nat, b: nat): nat {
    if a <= b then b - a else a - b
  }

  /** The distance is what the smaller lacks to the larger. */
  lemma DistanceIs(a: nat, b: nat)
    ensures a <= b ==> a + Distance(a, b) == b
    ensures b <= a ==> b + Distance(a, b) == a
  {
  }

  /** Closer to the midpoint, then smaller, then first by name. */
  predicate Preferred(a: ModelOption, b: ModelOption, midpoint: nat) {
    || Distance(a.bytes, midpoint) < Distance(b.bytes, midpoint)
    || (Distance(a.bytes, midpoint) == Distance(b.bytes, midpoint) && Before(a, b))
  }

  ghost predicate IsBalanced(options: seq<ModelOption>, o: ModelOption, midpoint: nat) {
    o in options && forall p :: p in options && p != o ==> Preferred(o, p, midpoint)
  }

  lemma PreferredOrders(a: ModelOption, b: ModelOption, midpoint: nat)
    ensures Preferred(a, b, midpoint) || Preferred(b, a, midpoint) || a == b
    ensures !(Preferred(a, b, midpoint) && Preferred(b, a, midpoint))
  {
    BeforeOrders(a, b);
  }

  lemma PreferredTransitive(a: ModelOption, b: ModelOption, c: ModelOption, midpoint: nat)
    requires Preferred(a, b, midpoint) && Preferred(b, c, midpoint)
    ensures Preferred(a, c, midpoint)
  {
    if Distance(a.bytes, midpoint) == Distance(b.bytes, midpoint) == Distance(c.bytes, midpoint) {
      BeforeTransitive(a, b, c);
    }
  }

  /** One choice per set of options: listing them in another order changes nothing. */
  lemma BalancedUnique(a: seq<ModelOption>, b: seq<ModelOption>, lo: nat, hi: nat, loB: nat, hiB: nat,
                       x: ModelOption, y: ModelOption)
    requires forall o :: o in a <==> o in b
    requires Extremes(a, lo, hi) && Extremes(b, loB, hiB)
    requires IsBalanced(a, x, Midpoint(lo, hi)) && IsBalanced(b, y, Midpoint(loB, hiB))
    ensures lo == loB && hi == hiB && x == y
  {
    PreferredOrders(x, y, Midpoint(lo, hi));
  }

  /** The fold over the sizes; the starting values cross only when there are no options. */
  method Range(options: seq<ModelOption>) returns (lo: u64, hi: u64)
    ensures lo > hi <==> options == []
    ensures options != [] ==> Extremes(options, lo, hi)
  {
    lo, hi := U64_LIMIT - 1, 0;
    for i := 0 to |options|
      invariant i == 0 ==> lo == U64_LIMIT - 1 && hi == 0
      invariant i > 0 ==> Extremes(options[..i], lo, hi) && lo <= hi
    {
      assert options[..i + 1] == options[..i] + [options[i]];
      lo, hi := Min(lo, options[i].bytes), Max(hi, options[i].bytes);
    }
    assert options[..|options|] == options;
  }

  /** An option with its speed and quality estimates, whatever those are. */
  datatype Scored<S, Q> = Scored(option: ModelOption, speed: S, quality: Q)

  datatype Recommendation<S, Q> = Recommendation(quant: string, speed: S, quality: Q)

  function Options<S, Q>(scored: seq<Scored<S, Q>>): seq<ModelOption> {
    seq(|scored|, i requires 0 <= i < |scored| => scored[i].option)
  }

  /** The first entry for the balanced option. */
  ghost predicate FirstBalanced(options: seq<ModelOption>, i: nat, midpoint: nat) {
    i < |options| && IsBalanced(options, options[i], midpoint) && options[i] !in options[..i]
  }

  lemma FirstBalancedStep(options: seq<ModelOption>, o: ModelOption, best: nat, midpoint: nat)
    requires FirstBalanced(options, best, midpoint)
    ensures FirstBalanced(options + [o], if Preferred(o, options[best], midpoint) then |options| else best, midpoint)
  {
    var more := options + [o];
    assert more[..|options|] == options && more[..best] == options[..best];
    PreferredOrders(options[best], o, midpoint);
    if Preferred(o, options[best], midpoint) {
      forall p | p in options
        ensures Preferred(o, p, midpoint) && p != o
      {
        if p != options[best] {
          PreferredTransitive(o, options[best], p, midpoint);
        }
        PreferredOrders(o, p, midpoint);
      }
    }
  }

  /** None for no options, else the first entry for the balanced option, with its own estimates. */
  method BalancedQuant<S, Q>(scored: seq<Scored<S, Q>>)
    returns (r: Option<Recommendation<S, Q>>, ghost range: (u64, u64), ghost at: nat)
    ensures r == None <==> scored == []
    ensures r.Some? ==>
              && Extremes(Options(scored), range.0, range.1)
              && FirstBalanced(Options(scored), at, Midpoint(range.0, range.1))
              && r.value == Recommendation(scored[at].option.quant, scored[at].speed, scored[at].quality)
  {
    var options := Options(scored);
    var lo, hi := Range(options);
    range, at := (lo, hi), 0;
    if lo > hi {
      return None, range, at;
    }
    var midpoint := Midpoint(lo, hi);
    var best := 0;
    for i := 1 to |options|
      invariant FirstBalanced(options[..i], best, midpoint)
    {
      assert options[..i + 1] == options[..i] + [options[i]];
      FirstBalancedStep(options[..i], options[i], best, midpoint);
      if Preferred(options[i], options[best], midpoint) {
        best := i;
      }
    }
    assert options[..|options|] == options;
    at := best;
    return Some(Recommendation(scored[best].option.quant, scored[best].speed, scored[best].quality)), range, at;
  }

  // ----- How close to the middle the choice is -------------------------------

  /** No option is nearer to the exact middle of the range (compared without halving). */
  ghost predicate Closest(options: seq<ModelOption>, lo: nat, hi: nat, o: ModelOption) {
    forall p :: p in options ==> Distance(2 * o.bytes, lo + hi) <= Distance(2 * p.bytes, lo + hi)
  }

  /** Every list of options with this range gets the one closest to the middle. */
  ghost predicate AlwaysClosest(lo: u64, hi: u64) {
    forall options, o :: Extremes(options, lo, hi) && IsBalanced(options, o, Midpoint(lo, hi)) ==>
      Closest(options, lo, hi, o)
  }

  lemma EvenOrNarrowIsClosest(options: seq<ModelOption>, lo: u64, hi: u64, o: ModelOption)
    requires (lo % 2 == 0 && hi % 2 == 0) || hi - lo <= 1
    requires Extremes(options, lo, hi) && IsBalanced(options, o, Midpoint(lo, hi))
    ensures Closest(options, lo, hi, o)
  {
    var m := Midpoint(lo, hi);
    if lo % 2 == 0 && hi % 2 == 0 {
      assert 2 * m == lo + hi;
      forall p | p in options
        ensures Distance(2 * o.bytes, lo + hi) <= Distance(2 * p.bytes, lo + hi)
      {
        assert Distance(2 * o.bytes, 2 * m) == 2 * Distance(o.bytes, m);
        assert Distance(2 * p.bytes, 2 * m) == 2 * Distance(p.bytes, m);
      }
    }
  }

  /** Otherwise halving first loses a unit, and the option just below the largest is passed over for the least. */
  lemma OddHalvesMissTheMiddle(lo: u64, hi: u64)
    requires lo + 1 < hi && !(lo % 2 == 0 && hi % 2 == 0)
    ensures !AlwaysClosest(lo, hi)
  {
    var a, b, c := ModelOption("A", lo), ModelOption("B", hi - 1), ModelOption("C", hi);
    var options := [a, b, c];
    assert a in options && b in options && c in options;
    assert Extremes(options, lo, hi);
    assert IsBalanced(options, a, Midpoint(lo, hi));
    assert !Closest(options, lo, hi, a);
  }

  /** The choice is the option closest to the middle exactly when both ends are even, or at most a byte apart. */
  lemma ClosestExactly(lo: u64, hi: u64)
    requires lo <= hi
    ensures AlwaysClosest(lo, hi) <==> (lo % 2 == 0 && hi % 2 == 0) || hi - lo <= 1
  {
    if (lo % 2 == 0 && hi % 2 == 0) || hi - lo <= 1 {
      forall options, o | Extremes(options, lo, hi) && IsBalanced(options, o, Midpoint(lo, hi))
        ensures Closest(options, lo, hi, o)
      {
        EvenOrNarrowIsClosest(options, lo, hi, o);
      }
    } else {
      OddHalvesMissTheMiddle(lo, hi);
    }
  }
}
