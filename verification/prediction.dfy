/**
 * The vehicle tally of `predict_vehicles` (prediction.py).
 *
 * The detector itself is not modelled: its output is given as one sequence of
 * class names per result, one name per detected box, and a failed inference
 * as `None`.
 */
module Prediction {
  import opened Wrappers

  /** A count dictionary: category name to count. */
  type Counts = map<string, int>

  /** The four counted classes, in the order the result dictionary lists them. */
  const VEHICLES: seq<string> := ["car", "bus", "truck", "motorcycle"]

  /** The class names of every detected box, result after result, box after box. */
  function Boxes(results: seq<seq<string>>): (names: seq<string>)
  {
    if results == [] then [] else Boxes(results[..|results| - 1]) + results[|results| - 1]
  }

  /** How many times `name` occurs in `names`. */
  function Occurrences(names: seq<string>, name: string): nat
  {
    if names == [] then 0
    else Occurrences(names[..|names| - 1], name) + (if names[|names| - 1] == name then 1 else 0)
  }

  /** How many entries of `names` are not one of the four vehicle classes. */
  function OtherBoxes(names: seq<string>): nat
  {
    if names == [] then 0
    else OtherBoxes(names[..|names| - 1]) + (if names[|names| - 1] in VEHICLES then 0 else 1)
  }

  /** The dictionary the tally loop builds from a flat list of class names. */
  function Count(names: seq<string>): (counts: Counts)
    ensures forall name :: name in counts <==> name in VEHICLES
    ensures forall name :: name in counts ==> counts[name] >= 0
  {
    map v | v in VEHICLES :: Occurrences(names, v)
  }

  /** The successful result of `predict_vehicles` for the given detector results. */
  function Tally(results: seq<seq<string>>): (counts: Counts)
    ensures forall name :: name in counts <==> name in VEHICLES
    ensures forall name :: name in counts ==> counts[name] >= 0
  {
    Count(Boxes(results))
  }

  /** The value of category `k` in `c`, a missing category counting as zero. */
  function Get(c: Counts, k: string): int
  {
    if k in c then c[k] else 0
  }

  /** Per-category sum of two count dictionaries, a missing category counting as zero. */
  function Sum(c1: Counts, c2: Counts): (s: Counts)
    ensures s.Keys == c1.Keys + c2.Keys
    ensures forall k :: k in s ==> s[k] == Get(c1, k) + Get(c2, k)
  {
    map k | k in c1.Keys + c2.Keys :: Get(c1, k) + Get(c2, k)
  }

  /** Sum of the four vehicle counts of a dictionary that holds all four. */
  function VehicleTotal(c: Counts): int
    requires forall v :: v in VEHICLES ==> v in c
  {
    c["car"] + c["bus"] + c["truck"] + c["motorcycle"]
  }

  /**
   * Every dictionary `predict_vehicles` returns is either the empty failure
   * result or holds exactly the four vehicle keys.
   */
  ghost predicate Shaped(c: Counts)
  {
    c == map[] || forall k :: k in c <==> k in VEHICLES
  }

  /**
   * `predict_vehicles`: `None` stands for an inference that raised, which
   * yields the empty dictionary; otherwise the four counters start at zero and
   * every box whose class is one of the four adds one to its counter.
   */
  method PredictVehicles(inference: Option<seq<seq<string>>>) returns (counts: Counts)
    ensures inference.None? ==> counts == map[]
    ensures inference.Some? ==> counts == Tally(inference.value)
    ensures Shaped(counts) && forall k :: k in counts ==> counts[k] >= 0
  {
    if inference.None? {
      return map[];
    }
    var results := inference.value;
    counts := map v | v in VEHICLES :: 0;
    ghost var seen: seq<string> := [];
    var i := 0;
    while i < |results|
      invariant 0 <= i <= |results|
      invariant seen == Boxes(results[..i])
      invariant CountsOf(counts, seen)
    {
      var boxes := results[i];
      BoxesPrefix(results, i);
      var j := 0;
      while j < |boxes|
        invariant 0 <= j <= |boxes|
        invariant seen + boxes[j..] == Boxes(results[..i + 1])
        invariant CountsOf(counts, seen)
      {
        var name := boxes[j];
        assert boxes[j..] == [name] + boxes[j + 1..];
        if name in VEHICLES {
          counts := counts[name := counts[name] + 1];
        }
        seen := seen + [name];
        j := j + 1;
      }
      i := i + 1;
    }
    assert results[..i] == results;
    CountsOfIsCount(counts, seen);
  }

  /** `counts` holds the four vehicle keys and nothing else, each with its number of occurrences in `names`. */
  ghost predicate CountsOf(counts: Counts, names: seq<string>)
  {
    (forall k :: k in counts <==> k in VEHICLES)
    && forall k :: k in counts ==> counts[k] == Occurrences(names, k)
  }

  lemma CountsOfIsCount(counts: Counts, names: seq<string>)
    requires CountsOf(counts, names)
    ensures counts == Count(names)
  {
  }

  lemma BoxesPrefix(results: seq<seq<string>>, i: nat)
    requires i < |results|
    ensures Boxes(results[..i + 1]) == Boxes(results[..i]) + results[i]
  {
    assert results[..i + 1][..i] == results[..i];
  }

  lemma {:induction false} OccurrencesAppend(s: seq<string>, t: seq<string>, name: string)
    ensures Occurrences(s + t, name) == Occurrences(s, name) + Occurrences(t, name)
    decreases |t|
  {
    if t == [] {
      assert s + t == s;
    } else {
      var u := s + t;
      assert u[..|u| - 1] == s + t[..|t| - 1];
      OccurrencesAppend(s, t[..|t| - 1], name);
    }
  }

  lemma {:induction false} BoxesAppend(a: seq<seq<string>>, b: seq<seq<string>>)
    ensures Boxes(a + b) == Boxes(a) + Boxes(b)
    decreases |b|
  {
    if b == [] {
      assert a + b == a;
    } else {
      var u := a + b;
      assert u[..|u| - 1] == a + b[..|b| - 1];
      BoxesAppend(a, b[..|b| - 1]);
    }
  }

  /**
   * Every box is either counted under exactly one of the four classes or
   * ignored, so the four counts add up to the number of vehicle boxes.
   */
  lemma {:induction false} CountTotal(names: seq<string>)
    ensures VehicleTotal(Count(names)) + OtherBoxes(names) == |names|
  {
    if names != [] {
      CountTotal(names[..|names| - 1]);
    }
  }

  /** All counts are non-negative and together at most the number of boxes detected. */
  lemma TallyBounded(results: seq<seq<string>>)
    ensures forall v :: v in VEHICLES ==> 0 <= Tally(results)[v]
    ensures VehicleTotal(Tally(results)) <= |Boxes(results)|
  {
    CountTotal(Boxes(results));
  }

  /** Each count is the number of boxes, over all results, whose class is that category. */
  lemma {:induction false} TallyCountsBoxes(results: seq<seq<string>>, v: string)
    requires v in VEHICLES
    ensures Tally(results)[v] == Occurrences(Boxes(results), v)
    ensures results != [] ==>
      Tally(results)[v] == Tally(results[..|results| - 1])[v] + Occurrences(results[|results| - 1], v)
  {
    if results != [] {
      OccurrencesAppend(Boxes(results[..|results| - 1]), results[|results| - 1], v);
    }
  }

  /** Tallying two result lists one after the other adds up per category. */
  lemma TallyAppend(a: seq<seq<string>>, b: seq<seq<string>>)
    ensures Tally(a + b) == Sum(Tally(a), Tally(b))
  {
    BoxesAppend(a, b);
    var left, right := Tally(a + b), Sum(Tally(a), Tally(b));
    assert left.Keys == right.Keys;
    forall v | v in left
      ensures left[v] == right[v]
    {
      OccurrencesAppend(Boxes(a), Boxes(b), v);
    }
  }

  /** A box of any other class leaves every count as it was and never becomes a key. */
  lemma TallyIgnoresOtherClasses(results: seq<seq<string>>, boxes: seq<string>)
    requires forall k :: 0 <= k < |boxes| ==> boxes[k] !in VEHICLES
    ensures Tally(results + [boxes]) == Tally(results)
  {
    TallyAppend(results, [boxes]);
    assert Boxes([boxes]) == boxes by {
      assert [boxes][..0] == [];
    }
    forall v | v in VEHICLES
      ensures Occurrences(boxes, v) == 0
    {
      NoOccurrences(boxes, v);
    }
  }

  lemma {:induction false} NoOccurrences(names: seq<string>, name: string)
    requires forall k :: 0 <= k < |names| ==> names[k] != name
    ensures Occurrences(names, name) == 0
  {
    if names != [] {
      NoOccurrences(names[..|names| - 1], name);
    }
  }
}
