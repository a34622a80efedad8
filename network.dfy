/**
 * The edge selection of `renderNetworkGraph`: the related subclusters whose
 * similarity reaches the slider threshold, at most 30 of them, in the order
 * the detail record lists them.
 */
module NetworkGraph {
  import opened VizData
  import opened Sequences

  /** At most this many related subclusters are drawn. */
  const MaxConnections: nat := 30

  predicate Reaches(threshold: real, c: Related) { c.similarity >= threshold }

  /** `related.filter(r => r.similarity >= threshold)`. */
  function Qualifying(related: seq<Related>, threshold: real): (q: seq<Related>)
    ensures forall i :: 0 <= i < |q| ==> q[i].similarity >= threshold && q[i] in related
    ensures forall i :: 0 <= i < |related| && related[i].similarity >= threshold ==> related[i] in q
  {
    Filter(related, c => Reaches(threshold, c))
  }

  /** `related.filter(r => r.similarity >= threshold).slice(0, 30)`. */
  function SelectConnections(related: seq<Related>, threshold: real): (r: seq<Related>)
    ensures |r| <= MaxConnections
    ensures forall i :: 0 <= i < |r| ==> r[i].similarity >= threshold && r[i] in related
    ensures |r| == if |Qualifying(related, threshold)| < MaxConnections then |Qualifying(related, threshold)| else MaxConnections
    ensures r <= Qualifying(related, threshold)
  {
    Take(Qualifying(related, threshold), MaxConnections)
  }

  /** A related subcluster that reaches the threshold is left out only when 30 others were already taken. */
  lemma DroppedOnlyWhenFull(related: seq<Related>, threshold: real, c: Related)
    requires c in related && c.similarity >= threshold
    requires c !in SelectConnections(related, threshold)
    ensures |SelectConnections(related, threshold)| == MaxConnections
  {
    var q := Qualifying(related, threshold);
    var i :| 0 <= i < |related| && related[i] == c;
    assert c in q;
  }

  /** Raising the threshold never adds an edge. */
  lemma SelectionShrinksAsThresholdRises(related: seq<Related>, low: real, high: real)
    requires low <= high
    ensures |SelectConnections(related, high)| <= |SelectConnections(related, low)|
    ensures Qualifying(Qualifying(related, low), high) == Qualifying(related, high)
  {
    FilterNarrower(related, c => Reaches(high, c), c => Reaches(low, c));
  }

  /** Selections of two lists joined end to end: the second list contributes only what the first leaves room for. */
  lemma SelectionOfConcat(a: seq<Related>, b: seq<Related>, threshold: real)
    ensures SelectConnections(a + b, threshold) ==
      Take(Qualifying(a, threshold) + Qualifying(b, threshold), MaxConnections)
  {
    FilterConcat(a, b, c => Reaches(threshold, c));
  }
}
