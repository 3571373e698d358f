// JSON values as the Python side of the editor holds them, and the
// container operations both tree implementations use to rebuild them.

module Wrappers {
  datatype Option<+T> = None | Some(value: T)
}

module JsonValue {
  import opened Wrappers

  /** The two mapping classes the editor meets: `dict` and `collections.OrderedDict`. */
  datatype MapKind = PlainDict | OrderedDict

  /** The two sequence classes the editor meets: `list` and `tuple`. */
  datatype SeqKind = PyList | PyTuple

  /** One key/value pair of a mapping, in iteration order. */
  type Entry = (string, Json)

  /**
   * A JSON value (RFC 8259 section 3) restricted to the scalar kinds the
   * model covers (null, booleans, integers, strings) together with the
   * concrete Python container class that holds it.  A mapping is its
   * ordered entry sequence; Python mappings never repeat a key, which
   * WF below records.
   */
  datatype Json =
    | Null
    | Bool(b: bool)
    | Int(i: int)
    | Str(s: string)
    | Obj(mapKind: MapKind, entries: seq<Entry>)
    | Arr(seqKind: SeqKind, items: seq<Json>)

  /** The Python type object `type(v)` of a value. */
  datatype PyType =
    | NoneType | BoolType | IntType | StrType
    | DictType | OrderedDictType | ListType | TupleType

  function TypeOf(v: Json): PyType {
    match v
    case Null => NoneType
    case Bool(_) => BoolType
    case Int(_) => IntType
    case Str(_) => StrType
    case Obj(k, _) => if k == PlainDict then DictType else OrderedDictType
    case Arr(k, _) => if k == PyList then ListType else TupleType
  }

  /** `t.__name__` */
  function TypeName(t: PyType): string {
    match t
    case NoneType => "NoneType"
    case BoolType => "bool"
    case IntType => "int"
    case StrType => "str"
    case DictType => "dict"
    case OrderedDictType => "OrderedDict"
    case ListType => "list"
    case TupleType => "tuple"
  }

  const ListTypeNames: set<string> := {"list", "tuple"}
  const DictTypeNames: set<string> := {"dict", "OrderedDict"}
  const NoneTypeName: string := "NoneType"

  predicate IsListType(t: PyType) { t == ListType || t == TupleType }
  predicate IsDictType(t: PyType) { t == DictType || t == OrderedDictType }
  predicate SupportsChildren(t: PyType) { IsListType(t) || IsDictType(t) }

  predicate IsScalar(v: Json) { !v.Obj? && !v.Arr? }

  /** The names used to classify type cells agree with the type objects. */
  lemma TypeNameClasses(t: PyType)
    ensures TypeName(t) in ListTypeNames <==> IsListType(t)
    ensures TypeName(t) in DictTypeNames <==> IsDictType(t)
    ensures TypeName(t) == NoneTypeName <==> t == NoneType
    ensures TypeName(t) == "bool" <==> t == BoolType
    ensures TypeName(t) == "int" <==> t == IntType
  {
  }

  /** The value `t()` that calling a type object with no argument makes. */
  function Default(t: PyType): (r: Json)
    ensures TypeOf(r) == t
    ensures r.Obj? ==> r.entries == []
    ensures r.Arr? ==> r.items == []
  {
    match t
    case NoneType => Null
    case BoolType => Bool(false)
    case IntType => Int(0)
    case StrType => Str("")
    case DictType => Obj(PlainDict, [])
    case OrderedDictType => Obj(OrderedDict, [])
    case ListType => Arr(PyList, [])
    case TupleType => Arr(PyTuple, [])
  }

  function Keys(es: seq<Entry>): (ks: seq<string>)
    ensures |ks| == |es|
    ensures forall i :: 0 <= i < |es| ==> ks[i] == es[i].0
  {
    seq(|es|, i requires 0 <= i < |es| => es[i].0)
  }

  predicate DistinctKeys(es: seq<Entry>) {
    forall i, j :: 0 <= i < j < |es| ==> es[i].0 != es[j].0
  }

  /**
   * The entries after `m[k] = v` on a Python mapping: an existing key keeps
   * its place and takes the new value, a new key goes last.
   */
  function Assign(es: seq<Entry>, k: string, v: Json): (r: seq<Entry>)
    ensures k in Keys(es) ==> Keys(r) == Keys(es)
    ensures k !in Keys(es) ==> r == es + [(k, v)]
    ensures (k, v) in r
  {
    if es == [] then [(k, v)]
    else if es[0].0 == k then [(k, v)] + es[1..]
    else
      KeysCons(es[0], es[1..]);
      assert [es[0]] + es[1..] == es;
      var r := [es[0]] + Assign(es[1..], k, v);
      KeysCons(es[0], Assign(es[1..], k, v));
      r
  }

  lemma KeysCons(e: Entry, es: seq<Entry>)
    ensures Keys([e] + es) == [e.0] + Keys(es)
  {
  }

  /** The entries after assigning every pair of `ps` in order. */
  function AssignAll(acc: seq<Entry>, ps: seq<Entry>): seq<Entry>
    decreases |ps|
  {
    if ps == [] then acc else AssignAll(Assign(acc, ps[0].0, ps[0].1), ps[1..])
  }

  /** The value a lookup `m[k]` finds, if any. */
  function Lookup(es: seq<Entry>, k: string): Option<Json> {
    if es == [] then None
    else if es[0].0 == k then Some(es[0].1)
    else Lookup(es[1..], k)
  }

  /**
   * Storing one rebuilt value into the object being filled: `append` on a
   * list, key assignment on a mapping.  A tuple has no `append` and a
   * scalar supports no item assignment: both raise, which is None here.
   */
  function Put(out: Json, k: string, v: Json): (r: Option<Json>)
    ensures r.Some? <==> (out.Obj? || (out.Arr? && out.seqKind == PyList))
    ensures r.Some? ==> TypeOf(r.value) == TypeOf(out)
  {
    match out
    case Arr(PyList, xs) => Some(Arr(PyList, xs + [v]))
    case Obj(kind, es) => Some(Obj(kind, Assign(es, k, v)))
    case _ => None
  }

  /** Storing a sequence of key/value pairs in order; the first failure wins. */
  function PutAll(out: Json, ps: seq<Entry>): Option<Json>
    decreases |ps|
  {
    if ps == [] then Some(out)
    else match Put(out, ps[0].0, ps[0].1)
      case None => None
      case Some(o) => PutAll(o, ps[1..])
  }

  function Values(ps: seq<Entry>): (vs: seq<Json>)
    ensures |vs| == |ps|
    ensures forall i :: 0 <= i < |ps| ==> vs[i] == ps[i].1
  {
    seq(|ps|, i requires 0 <= i < |ps| => ps[i].1)
  }

  /** Python's `dict` has unique keys at every level; JSON parsing keeps the last duplicate. */
  predicate WF(v: Json) {
    match v
    case Obj(_, es) => DistinctKeys(es) && forall i :: 0 <= i < |es| ==> WF(es[i].1)
    case Arr(_, xs) => forall i :: 0 <= i < |xs| ==> WF(xs[i])
    case _ => true
  }

  /**
   * A value as `json.load(fp, object_pairs_hook=OrderedDict)` produces it:
   * every mapping an OrderedDict and every sequence a list.
   */
  predicate Plain(v: Json) {
    match v
    case Obj(kind, es) => kind == OrderedDict && forall i :: 0 <= i < |es| ==> Plain(es[i].1)
    case Arr(kind, xs) => kind == PyList && forall i :: 0 <= i < |xs| ==> Plain(xs[i])
    case _ => true
  }

  /**
   * What rebuilding a nested container yields: every mapping becomes a
   * fresh OrderedDict filled by key assignment, every sequence a fresh list.
   */
  function Norm(v: Json): Json {
    match v
    case Obj(_, es) =>
      Obj(OrderedDict, AssignAll([], seq(|es|, i requires 0 <= i < |es| => (es[i].0, Norm(es[i].1)))))
    case Arr(_, xs) => Arr(PyList, seq(|xs|, i requires 0 <= i < |xs| => Norm(xs[i])))
    case _ => v
  }

  function NormEntries(es: seq<Entry>): (r: seq<Entry>)
    ensures |r| == |es|
    ensures forall i :: 0 <= i < |es| ==> r[i] == (es[i].0, Norm(es[i].1))
  {
    seq(|es|, i requires 0 <= i < |es| => (es[i].0, Norm(es[i].1)))
  }

  function NormItems(xs: seq<Json>): (r: seq<Json>)
    ensures |r| == |xs|
    ensures forall i :: 0 <= i < |xs| ==> r[i] == Norm(xs[i])
  {
    seq(|xs|, i requires 0 <= i < |xs| => Norm(xs[i]))
  }

  /** Appending the normalised items one at a time. */
  lemma NormItemsStep(acc: seq<Json>, xs: seq<Json>, i: nat)
    requires i < |xs|
    ensures acc + [Norm(xs[i])] + NormItems(xs)[i + 1..] == acc + NormItems(xs)[i..]
  {
    assert NormItems(xs)[i..] == [Norm(xs[i])] + NormItems(xs)[i + 1..];
  }

  /**
   * What both tree implementations hand back after loading `v` and reading
   * it out again.  The root container keeps its own class; its contents
   * are rebuilt as in Norm.  A tuple root with items fails (its items are
   * appended to a fresh tuple), and a scalar root comes back as the empty
   * value of its type, because reading out fills a fresh root-type object
   * from the children of the single top row and a leaf row has none.
   */
  function RoundTrip(v: Json): Option<Json> {
    match v
    case Obj(kind, es) => Some(Obj(kind, AssignAll([], NormEntries(es))))
    case Arr(PyList, xs) => Some(Arr(PyList, NormItems(xs)))
    case Arr(PyTuple, xs) => if xs == [] then Some(v) else None
    case Null => Some(Null)
    case _ => Some(Default(TypeOf(v)))
  }

  // ---------------------------------------------------------------------
  // Lemmas

  lemma {:induction false} AssignAllFresh(acc: seq<Entry>, ps: seq<Entry>)
    requires DistinctKeys(acc + ps)
    ensures AssignAll(acc, ps) == acc + ps
    decreases |ps|
  {
    if ps != [] {
      var k := ps[0].0;
      assert k !in Keys(acc) by {
        forall i | 0 <= i < |acc| ensures acc[i].0 != k {
          assert (acc + ps)[i] == acc[i] && (acc + ps)[|acc|] == ps[0];
        }
      }
      assert Assign(acc, k, ps[0].1) == acc + [ps[0]];
      assert acc + [ps[0]] + ps[1..] == acc + ps;
      AssignAllFresh(acc + [ps[0]], ps[1..]);
    }
  }

  lemma NormEntriesKeys(es: seq<Entry>)
    ensures Keys(NormEntries(es)) == Keys(es)
  {
  }

  /** Rebuilding a value that json.load could have produced gives it back unchanged. */
  lemma {:induction false} NormPlain(v: Json)
    requires WF(v) && Plain(v)
    ensures Norm(v) == v
    decreases v
  {
    match v
    case Obj(kind, es) =>
      var ns := NormEntries(es);
      forall i | 0 <= i < |es| ensures ns[i] == es[i] {
        NormPlain(es[i].1);
      }
      assert ns == es;
      assert DistinctKeys([] + ns);
      AssignAllFresh([], ns);
      assert [] + ns == es;
    case Arr(kind, xs) =>
      var ns := NormItems(xs);
      forall i | 0 <= i < |xs| ensures ns[i] == xs[i] {
        NormPlain(xs[i]);
      }
      assert ns == xs;
    case _ =>
  }

  /**
   * The central property of both tree implementations: a mapping, a list or
   * null that json.load could have produced survives a load and read-out.
   */
  lemma RoundTripPlain(v: Json)
    requires WF(v) && Plain(v)
    requires v.Obj? || v.Arr? || v.Null?
    ensures RoundTrip(v) == Some(v)
  {
    NormPlain(v);
    if v.Obj? {
      assert Norm(v) == Obj(OrderedDict, AssignAll([], NormEntries(v.entries)));
    } else if v.Arr? {
      assert Norm(v) == Arr(PyList, NormItems(v.items));
    }
  }

  /** A scalar root is not preserved: it comes back as the empty value of its type. */
  lemma ScalarRootLost(i: int, s: string, b: bool)
    ensures RoundTrip(Int(i)) == Some(Int(0))
    ensures RoundTrip(Str(s)) == Some(Str(""))
    ensures RoundTrip(Bool(b)) == Some(Bool(false))
  {
  }

  /** Appending pairs to a list keeps their values in order and drops their keys. */
  lemma {:induction false} PutAllList(xs: seq<Json>, ps: seq<Entry>)
    ensures PutAll(Arr(PyList, xs), ps) == Some(Arr(PyList, xs + Values(ps)))
    decreases |ps|
  {
    if ps == [] {
      assert xs + Values(ps) == xs;
    } else {
      PutAllList(xs + [ps[0].1], ps[1..]);
      assert xs + [ps[0].1] + Values(ps[1..]) == xs + Values(ps);
    }
  }

  /** Filling a mapping assigns the pairs in order. */
  lemma {:induction false} PutAllObj(kind: MapKind, es: seq<Entry>, ps: seq<Entry>)
    ensures PutAll(Obj(kind, es), ps) == Some(Obj(kind, AssignAll(es, ps)))
    decreases |ps|
  {
    if ps != [] {
      PutAllObj(kind, Assign(es, ps[0].0, ps[0].1), ps[1..]);
    }
  }

  /** Later assignments win: a lookup after AssignAll finds the last pair with that key. */
  lemma {:induction false} AssignAllLookupLast(acc: seq<Entry>, ps: seq<Entry>, j: nat)
    requires j < |ps|
    requires forall m :: j < m < |ps| ==> ps[m].0 != ps[j].0
    ensures Lookup(AssignAll(acc, ps), ps[j].0) == Some(ps[j].1)
    decreases |ps|
  {
    var acc' := Assign(acc, ps[0].0, ps[0].1);
    if j == 0 {
      AssignLookupSame(acc, ps[0].0, ps[0].1);
      AssignAllLookupUntouched(acc', ps[1..], ps[0].0);
    } else {
      AssignAllLookupLast(acc', ps[1..], j - 1);
    }
  }

  lemma {:induction false} AssignLookupSame(es: seq<Entry>, k: string, v: Json)
    ensures Lookup(Assign(es, k, v), k) == Some(v)
    decreases |es|
  {
    if es != [] && es[0].0 != k {
      AssignLookupSame(es[1..], k, v);
    }
  }

  lemma {:induction false} AssignLookupOther(es: seq<Entry>, k: string, v: Json, k': string)
    requires k' != k
    ensures Lookup(Assign(es, k, v), k') == Lookup(es, k')
    decreases |es|
  {
    if es != [] && es[0].0 != k {
      AssignLookupOther(es[1..], k, v, k');
    }
  }

  lemma {:induction false} AssignAllLookupUntouched(acc: seq<Entry>, ps: seq<Entry>, k: string)
    requires forall m :: 0 <= m < |ps| ==> ps[m].0 != k
    ensures Lookup(AssignAll(acc, ps), k) == Lookup(acc, k)
    decreases |ps|
  {
    if ps != [] {
      AssignLookupOther(acc, ps[0].0, ps[0].1, k);
      AssignAllLookupUntouched(Assign(acc, ps[0].0, ps[0].1), ps[1..], k);
    }
  }

  /** Assigning never adds a second entry for a key, so the result is never longer than its inputs. */
  lemma {:induction false} AssignAllLength(acc: seq<Entry>, ps: seq<Entry>)
    ensures |AssignAll(acc, ps)| <= |acc| + |ps|
    ensures |AssignAll(acc, ps)| >= |acc|
    decreases |ps|
  {
    if ps != [] {
      var acc' := Assign(acc, ps[0].0, ps[0].1);
      assert |acc'| == |acc| || |acc'| == |acc| + 1 by {
        if ps[0].0 in Keys(acc) {
          assert |Keys(acc')| == |Keys(acc)|;
        }
      }
      AssignAllLength(acc', ps[1..]);
    }
  }

  /** A key already present stays present after any assignment. */
  lemma AssignKeepsKey(es: seq<Entry>, k: string, v: Json, k': string)
    requires k' in Keys(es)
    ensures k' in Keys(Assign(es, k, v))
    ensures |Assign(es, k, v)| <= |es| + 1
  {
    if k !in Keys(es) {
      assert Keys(es + [(k, v)]) == Keys(es) + [k];
    }
  }

  /** Assignment keeps the keys of a mapping distinct. */
  lemma AssignDistinct(es: seq<Entry>, k: string, v: Json)
    requires DistinctKeys(es)
    ensures DistinctKeys(Assign(es, k, v))
  {
    var r := Assign(es, k, v);
    if k in Keys(es) {
      forall i, j | 0 <= i < j < |r| ensures r[i].0 != r[j].0 {
        assert Keys(r)[i] == Keys(es)[i] && Keys(r)[j] == Keys(es)[j];
      }
    } else {
      forall i | 0 <= i < |es| ensures es[i].0 != k {
        assert Keys(es)[i] == es[i].0;
      }
    }
  }

  /** Filling a mapping from distinct keys leaves its keys distinct. */
  lemma {:induction false} AssignAllDistinct(acc: seq<Entry>, ps: seq<Entry>)
    requires DistinctKeys(acc)
    ensures DistinctKeys(AssignAll(acc, ps))
    decreases |ps|
  {
    if ps != [] {
      AssignDistinct(acc, ps[0].0, ps[0].1);
      AssignAllDistinct(Assign(acc, ps[0].0, ps[0].1), ps[1..]);
    }
  }

  /** A pair whose key is already in the mapping adds no entry, so the result is shorter than its inputs. */
  lemma {:induction false} AssignAllPresentKey(acc: seq<Entry>, ps: seq<Entry>, m: nat)
    requires m < |ps| && ps[m].0 in Keys(acc)
    ensures |AssignAll(acc, ps)| < |acc| + |ps|
    decreases |ps|
  {
    var acc' := Assign(acc, ps[0].0, ps[0].1);
    assert AssignAll(acc, ps) == AssignAll(acc', ps[1..]);
    AssignKeepsKey(acc, ps[0].0, ps[0].1, ps[m].0);
    if m == 0 {
      assert |Keys(acc')| == |Keys(acc)|;
      AssignAllLength(acc', ps[1..]);
    } else {
      assert ps[1..][m - 1] == ps[m];
      AssignAllPresentKey(acc', ps[1..], m - 1);
    }
  }

  /** Two pairs with the same key leave one entry between them: the result is shorter than its inputs. */
  lemma {:induction false} AssignAllClash(acc: seq<Entry>, ps: seq<Entry>, i: nat, j: nat)
    requires i < j < |ps| && ps[i].0 == ps[j].0
    ensures |AssignAll(acc, ps)| < |acc| + |ps|
    decreases |ps|
  {
    if i == 0 {
      AssignAllClashFront(acc, ps, j);
    } else {
      var acc', rest := Assign(acc, ps[0].0, ps[0].1), ps[1..];
      assert AssignAll(acc, ps) == AssignAll(acc', rest);
      AssignAdds(acc, ps[0].0, ps[0].1);
      assert rest[i - 1] == ps[i] && rest[j - 1] == ps[j];
      AssignAllClash(acc', rest, i - 1, j - 1);
    }
  }

  /** The first pair's key comes back later in the pairs. */
  lemma AssignAllClashFront(acc: seq<Entry>, ps: seq<Entry>, j: nat)
    requires 0 < j < |ps| && ps[0].0 == ps[j].0
    ensures |AssignAll(acc, ps)| < |acc| + |ps|
  {
    var acc' := Assign(acc, ps[0].0, ps[0].1);
    AssignAdds(acc, ps[0].0, ps[0].1);
    assert ps[1..][j - 1] == ps[j];
    AssignAllPresentKey(acc', ps[1..], j - 1);
  }

  /** An assignment adds at most one entry, and its key is then present. */
  lemma AssignAdds(es: seq<Entry>, k: string, v: Json)
    ensures |Assign(es, k, v)| <= |es| + 1
    ensures k in Keys(Assign(es, k, v))
  {
    var r := Assign(es, k, v);
    var n :| 0 <= n < |r| && r[n] == (k, v);
    assert Keys(r)[n] == k;
    if k in Keys(es) {
      assert |Keys(r)| == |Keys(es)|;
    }
  }
}
