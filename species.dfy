/**
  Species tabulation of a relaxed structure: from the per-atom chemical
  symbols, the distinct species in first-occurrence order and the number of
  atoms of each species. The writers of CONTCAR and OUTCAR use the sum of
  these counts as the number of atom lines to emit.
 */
module Species {

  /** A chemical symbol as ASE reports it, e.g. "Fe". */
  type Label = string

  /** Number of times `x` occurs in `s` (Python's `list.count`). */
  function Occurrences(s: seq<Label>, x: Label): (n: nat)
    ensures n <= |s|
    ensures n > 0 <==> x in s
  {
    if s == [] then 0
    else
      assert s == s[..|s| - 1] + [s[|s| - 1]];
      Occurrences(s[..|s| - 1], x) + (if s[|s| - 1] == x then 1 else 0)
  }

  predicate NoDuplicates(s: seq<Label>) {
    forall i, j :: 0 <= i < j < |s| ==> s[i] != s[j]
  }

  /** Index of the first occurrence of `x` in `s`. */
  function FirstIndex(s: seq<Label>, x: Label): (k: nat)
    requires x in s
    ensures k < |s| && s[k] == x
    ensures forall j :: 0 <= j < k ==> s[j] != x
  {
    if s[0] == x then 0 else 1 + FirstIndex(s[1..], x)
  }

  /**
    The distinct labels of `s`, each at the place where it first occurs.
    Defined by the last label, which is how the tabulating loop consumes the
    input: a label already seen adds nothing, a new one is appended.
   */
  function Distinct(s: seq<Label>): (d: seq<Label>)
    ensures NoDuplicates(d)
    ensures forall x :: x in d <==> x in s
  {
    if s == [] then []
    else
      var p := s[..|s| - 1];
      assert s == p + [s[|s| - 1]];
      var d' := Distinct(p);
      if s[|s| - 1] in d' then d' else d' + [s[|s| - 1]]
  }

  /** Sum, over the labels of `keys`, of their number of occurrences in `s`. */
  function Total(s: seq<Label>, keys: seq<Label>): nat {
    if keys == [] then 0
    else Total(s, keys[..|keys| - 1]) + Occurrences(s, keys[|keys| - 1])
  }

  /**
    `sum(ele.values())`: the number of atom lines the structure writers emit.
    The dictionary's keys are exactly `element`, so summing over `element`
    visits every value once, in the dictionary's insertion order.
   */
  function AtomCount(element: seq<Label>, ele: map<Label, nat>): (n: nat)
    requires NoDuplicates(element)
    requires forall x :: x in ele <==> x in element
    ensures forall x :: x in ele ==> ele[x] <= n
  {
    SumOver(element, ele)
  }

  /** The sum of `ele`'s values at the labels of `keys`, one term per entry of `keys`. */
  function SumOver(keys: seq<Label>, ele: map<Label, nat>): (n: nat)
    requires forall x :: x in keys ==> x in ele
    ensures forall x :: x in keys ==> ele[x] <= n
  {
    if keys == [] then 0
    else SumOver(keys[..|keys| - 1], ele) + ele[keys[|keys| - 1]]
  }

  /** The first species listed is the first atom's. */
  lemma {:induction false} DistinctHead(s: seq<Label>)
    requires |s| > 0
    ensures |Distinct(s)| > 0 && Distinct(s)[0] == s[0]
  {
    var p := s[..|s| - 1];
    if |p| > 0 {
      DistinctHead(p);
      assert p[0] == s[0];
    }
  }

  lemma FirstIndexOfPrefix(p: seq<Label>, y: Label, x: Label)
    requires x in p
    ensures FirstIndex(p + [y], x) == FirstIndex(p, x)
  {
    var k := FirstIndex(p, x);
    var k' := FirstIndex(p + [y], x);
    assert (p + [y])[k] == x;
    assert k' <= k;
  }

  /** The species come in the order of their first appearance in `s`. */
  lemma {:induction false} DistinctInFirstOccurrenceOrder(s: seq<Label>, i: nat, j: nat)
    requires i < j < |Distinct(s)|
    ensures FirstIndex(s, Distinct(s)[i]) < FirstIndex(s, Distinct(s)[j])
  {
    var p := s[..|s| - 1];
    var y := s[|s| - 1];
    assert s == p + [y];
    var d := Distinct(p);
    var x, z := Distinct(s)[i], Distinct(s)[j];
    FirstIndexOfPrefix(p, y, x);
    if y in d {
      DistinctInFirstOccurrenceOrder(p, i, j);
      FirstIndexOfPrefix(p, y, z);
    } else if j < |d| {
      DistinctInFirstOccurrenceOrder(p, i, j);
      FirstIndexOfPrefix(p, y, z);
    } else {
      assert z == y && y !in p;
      assert FirstIndex(s, z) == |p|;
    }
  }

  /** Both directions: a species precedes another iff it appears first. */
  lemma {:induction false} DistinctOrderIff(s: seq<Label>)
    ensures forall i, j :: 0 <= i < |Distinct(s)| && 0 <= j < |Distinct(s)| ==>
              (i < j <==> FirstIndex(s, Distinct(s)[i]) < FirstIndex(s, Distinct(s)[j]))
  {
    forall i, j | 0 <= i < |Distinct(s)| && 0 <= j < |Distinct(s)|
      ensures i < j <==> FirstIndex(s, Distinct(s)[i]) < FirstIndex(s, Distinct(s)[j])
    {
      if i < j { DistinctInFirstOccurrenceOrder(s, i, j); }
      else if j < i { DistinctInFirstOccurrenceOrder(s, j, i); }
    }
  }

  lemma OccurrencesSnoc(p: seq<Label>, y: Label, x: Label)
    ensures Occurrences(p + [y], x) == Occurrences(p, x) + (if y == x then 1 else 0)
  {
    assert (p + [y])[..|p|] == p;
  }

  lemma {:induction false} TotalSnoc(p: seq<Label>, y: Label, keys: seq<Label>)
    requires NoDuplicates(keys)
    ensures Total(p + [y], keys) == Total(p, keys) + (if y in keys then 1 else 0)
  {
    if keys != [] {
      var ks := keys[..|keys| - 1];
      var k := keys[|keys| - 1];
      assert keys == ks + [k];
      TotalSnoc(p, y, ks);
      OccurrencesSnoc(p, y, k);
      assert y in keys <==> y in ks || y == k;
      assert y in ks ==> y != k;
    }
  }

  /** The counts of the distinct species add up to the number of atoms. */
  lemma {:induction false} TotalOfDistinct(s: seq<Label>)
    ensures Total(s, Distinct(s)) == |s|
  {
    if s != [] {
      var p := s[..|s| - 1];
      var y := s[|s| - 1];
      assert s == p + [y];
      var d := Distinct(p);
      TotalOfDistinct(p);
      TotalSnoc(p, y, d);
      if y !in d {
        assert Occurrences(p, y) == 0;
        OccurrencesSnoc(p, y, y);
        assert (d + [y])[..|d|] == d;
      }
    }
  }

  lemma {:induction false} SumOverIsTotal(s: seq<Label>, element: seq<Label>, ele: map<Label, nat>)
    requires forall x :: x in element ==> x in ele && ele[x] == Occurrences(s, x)
    ensures SumOver(element, ele) == Total(s, element)
  {
    if element != [] {
      var e := element[..|element| - 1];
      assert forall x :: x in e ==> x in element;
      SumOverIsTotal(s, e, ele);
    }
  }

  /**
    The atom count of a tabulation: a dictionary that maps every distinct
    species to its number of occurrences has values summing to the number of
    atoms, so the writers emit one line per atom.
   */
  lemma AtomCountOfTabulation(elements: seq<Label>, ele: map<Label, nat>)
    requires forall x :: x in ele <==> x in Distinct(elements)
    requires forall x :: x in ele ==> ele[x] == Occurrences(elements, x)
    ensures AtomCount(Distinct(elements), ele) == |elements|
  {
    TotalOfDistinct(elements);
    SumOverIsTotal(elements, Distinct(elements), ele);
  }

  /**
    The first loop of Get_Element_Num: start from the first symbol and append
    every symbol not yet listed.
   */
  method FirstOccurrences(elements: seq<Label>) returns (element: seq<Label>)
    requires |elements| > 0
    ensures element == Distinct(elements)
  {
    element := [elements[0]];
    assert elements[..1][..0] == [];
    for i := 0 to |elements|
      invariant element == Distinct(elements[..if i == 0 then 1 else i])
    {
      var symbol := elements[i];
      assert elements[..i + 1][..i] == elements[..i];
      if symbol !in element {
        element := element + [symbol];
      }
    }
    assert elements[..|elements|] == elements;
  }

  /** The second loop of Get_Element_Num: `ele[x] = elements.count(x)` for each listed species. */
  method CountEach(elements: seq<Label>, element: seq<Label>) returns (ele: map<Label, nat>)
    ensures forall x :: x in ele <==> x in element
    ensures forall x :: x in ele ==> ele[x] == Occurrences(elements, x)
  {
    ele := map[];
    for j := 0 to |element|
      invariant forall x :: x in ele <==> x in element[..j]
      invariant forall x :: x in ele ==> ele[x] == Occurrences(elements, x)
    {
      assert element[..j + 1] == element[..j] + [element[j]];
      ele := ele[element[j] := Occurrences(elements, element[j])];
    }
    assert element[..|element|] == element;
  }

  /**
    Get_Element_Num: the species in first-occurrence order (`Distinct`: no
    duplicates, the input's labels, the first atom's first, in the order
    DistinctOrderIff states) and the number of atoms of each, whose sum
    AtomCountOfTabulation gives. The input
    must hold at least one symbol, as the source reads `elements[0]` before
    its loops.
   */
  method GetElementNum(elements: seq<Label>) returns (element: seq<Label>, ele: map<Label, nat>)
    requires |elements| > 0
    ensures element == Distinct(elements)
    ensures forall x :: x in ele <==> x in element
    ensures forall x :: x in ele ==> ele[x] == Occurrences(elements, x)
  {
    element := FirstOccurrences(elements);
    ele := CountEach(elements, element);
  }
}
