// The batch rename of the editor window: a structural map over a JSON
// value that applies one string function to mapping keys, to string
// leaves, or to both.

module RecursiveModify {
  import opened Wrappers
  import opened JsonValue

  /** The key an entry is stored under after the rename. */
  function NewKey(k: string, f: string -> string, modKey: bool): string {
    if modKey then f(k) else k
  }

  /**
   * `recursive_modify`: every mapping becomes a fresh OrderedDict filled
   * by key assignment (renamed keys when `modKey`), every sequence a fresh
   * list of the mapped elements; a leaf whose exact type is `str` is passed
   * through `f` when `modValues`, every other leaf is kept.
   */
  function Modify(data: Json, f: string -> string, modKey: bool, modValues: bool): (r: Json)
    ensures TypeOf(r) == (if data.Obj? then OrderedDictType else if data.Arr? then ListType else TypeOf(data))
    decreases data
  {
    match data
    case Obj(_, es) =>
      Obj(OrderedDict, AssignAll([], seq(|es|, i requires 0 <= i < |es| =>
        (NewKey(es[i].0, f, modKey), Modify(es[i].1, f, modKey, modValues)))))
    case Arr(_, xs) => Arr(PyList, seq(|xs|, i requires 0 <= i < |xs| => Modify(xs[i], f, modKey, modValues)))
    case Str(s) => if modValues then Str(f(s)) else data
    case _ => data
  }

  /** The pairs a mapping's entries are assigned as, in iteration order. */
  function RenamedEntries(es: seq<Entry>, f: string -> string, modKey: bool, modValues: bool): (ps: seq<Entry>)
    ensures |ps| == |es|
    ensures forall i :: 0 <= i < |es| ==>
      ps[i] == (NewKey(es[i].0, f, modKey), Modify(es[i].1, f, modKey, modValues))
  {
    seq(|es|, i requires 0 <= i < |es| => (NewKey(es[i].0, f, modKey), Modify(es[i].1, f, modKey, modValues)))
  }

  /** A mapping becomes an OrderedDict assigned the renamed entries in order. */
  lemma ModifyObj(kind: MapKind, es: seq<Entry>, f: string -> string, modKey: bool, modValues: bool)
    ensures Modify(Obj(kind, es), f, modKey, modValues) ==
            Obj(OrderedDict, AssignAll([], RenamedEntries(es, f, modKey, modValues)))
  {
    assert RenamedEntries(es, f, modKey, modValues) ==
           seq(|es|, i requires 0 <= i < |es| => (NewKey(es[i].0, f, modKey), Modify(es[i].1, f, modKey, modValues)));
  }

  /** A sequence becomes a list of the same length, each element mapped in place. */
  lemma ModifyList(kind: SeqKind, xs: seq<Json>, f: string -> string, modKey: bool, modValues: bool)
    ensures Modify(Arr(kind, xs), f, modKey, modValues).Arr?
    ensures Modify(Arr(kind, xs), f, modKey, modValues).seqKind == PyList
    ensures |Modify(Arr(kind, xs), f, modKey, modValues).items| == |xs|
    ensures forall i :: 0 <= i < |xs| ==>
      Modify(Arr(kind, xs), f, modKey, modValues).items[i] == Modify(xs[i], f, modKey, modValues)
  {
  }

  /** Only `str` leaves change, and only when values are modified. */
  lemma ModifyLeaf(data: Json, f: string -> string, modKey: bool, modValues: bool)
    requires IsScalar(data)
    ensures data.Str? && modValues ==> Modify(data, f, modKey, modValues) == Str(f(data.s))
    ensures !(data.Str? && modValues) ==> Modify(data, f, modKey, modValues) == data
  {
  }

  /**
   * Without anything to modify, or with a function that changes nothing,
   * the result is the input rebuilt: dicts as OrderedDicts, tuples as lists.
   */
  lemma {:induction false} ModifyUnchanged(data: Json, f: string -> string, modKey: bool, modValues: bool)
    requires (modKey || modValues) ==> forall s :: f(s) == s
    ensures Modify(data, f, modKey, modValues) == Norm(data)
    decreases data
  {
    match data
    case Obj(kind, es) =>
      var ps := RenamedEntries(es, f, modKey, modValues);
      forall i | 0 <= i < |es| ensures ps[i] == NormEntries(es)[i] {
        ModifyUnchanged(es[i].1, f, modKey, modValues);
      }
      assert ps == NormEntries(es);
      ModifyObj(kind, es, f, modKey, modValues);
      assert Norm(data) == Obj(OrderedDict, AssignAll([], NormEntries(es)));
    case Arr(kind, xs) =>
      var m := Modify(data, f, modKey, modValues);
      forall i | 0 <= i < |xs| ensures m.items[i] == NormItems(xs)[i] {
        ModifyUnchanged(xs[i], f, modKey, modValues);
      }
      assert m.items == NormItems(xs);
      assert Norm(data) == Arr(PyList, NormItems(xs));
    case _ =>
  }

  /**
   * Later entries win: under a renamed key the result holds the value of
   * the last entry renamed to it.
   */
  lemma ModifyLaterWins(kind: MapKind, es: seq<Entry>, f: string -> string, modKey: bool, modValues: bool, j: nat)
    requires j < |es|
    requires forall m :: j < m < |es| ==> NewKey(es[m].0, f, modKey) != NewKey(es[j].0, f, modKey)
    ensures Modify(Obj(kind, es), f, modKey, modValues).Obj?
    ensures Lookup(Modify(Obj(kind, es), f, modKey, modValues).entries, NewKey(es[j].0, f, modKey)) ==
            Some(Modify(es[j].1, f, modKey, modValues))
  {
    var ps := RenamedEntries(es, f, modKey, modValues);
    ModifyObj(kind, es, f, modKey, modValues);
    AssignAllLookupLast([], ps, j);
  }

  /** A mapping never grows; renamed keys that clash merge into one entry, so it can shrink. */
  lemma ModifyNoLonger(kind: MapKind, es: seq<Entry>, f: string -> string, modKey: bool, modValues: bool)
    ensures Modify(Obj(kind, es), f, modKey, modValues).Obj?
    ensures |Modify(Obj(kind, es), f, modKey, modValues).entries| <= |es|
  {
    ModifyObj(kind, es, f, modKey, modValues);
    AssignAllLength([], RenamedEntries(es, f, modKey, modValues));
  }

  /** When the renamed keys are distinct, the entries keep their order one for one. */
  lemma ModifyKeepsOrder(kind: MapKind, es: seq<Entry>, f: string -> string, modKey: bool, modValues: bool)
    requires DistinctKeys(RenamedEntries(es, f, modKey, modValues))
    ensures Modify(Obj(kind, es), f, modKey, modValues) == Obj(OrderedDict, RenamedEntries(es, f, modKey, modValues))
  {
    var ps := RenamedEntries(es, f, modKey, modValues);
    ModifyObj(kind, es, f, modKey, modValues);
    assert [] + ps == ps;
    AssignAllFresh([], ps);
  }

  /**
   * Two entries renamed to the same key collapse: the result has fewer
   * entries than the input, still no key twice, and under that key the
   * value of the last entry renamed to it.
   */
  lemma ModifyMergesClashingKeys(kind: MapKind, es: seq<Entry>, f: string -> string, modKey: bool, modValues: bool,
                                 i: nat, j: nat)
    requires i < j < |es| && NewKey(es[i].0, f, modKey) == NewKey(es[j].0, f, modKey)
    ensures Modify(Obj(kind, es), f, modKey, modValues).Obj?
    ensures |Modify(Obj(kind, es), f, modKey, modValues).entries| < |es|
    ensures DistinctKeys(Modify(Obj(kind, es), f, modKey, modValues).entries)
    ensures (forall m :: j < m < |es| ==> NewKey(es[m].0, f, modKey) != NewKey(es[j].0, f, modKey)) ==>
      Lookup(Modify(Obj(kind, es), f, modKey, modValues).entries, NewKey(es[j].0, f, modKey)) ==
      Some(Modify(es[j].1, f, modKey, modValues))
  {
    var ps := RenamedEntries(es, f, modKey, modValues);
    ModifyObj(kind, es, f, modKey, modValues);
    AssignAllClash([], ps, i, j);
    AssignAllDistinct([], ps);
    if forall m :: j < m < |es| ==> NewKey(es[m].0, f, modKey) != NewKey(es[j].0, f, modKey) {
      ModifyLaterWins(kind, es, f, modKey, modValues, j);
    }
  }
}
