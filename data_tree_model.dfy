// The item tree behind the editor's Qt item model. Every node keeps its
// key, its real typed value, the name of its type, a parent link, a cached
// row and its children. Loading a value builds nodes that attach
// themselves to their parent; reading out rebuilds a value by filling a
// fresh object of the root's type.

module DataTreeModel {
  import opened Wrappers
  import opened JsonValue
  import opened PyText
  import opened PyLists
  import opened UniqueKeys

  // ---------------------------------------------------------------------
  // Typed text edits

  /**
   * The lenient rule a bool node applies to edited text: anything starting
   * with "t" or "T" is true, empty text is false.
   */
  function BoolFromText(text: string): (r: bool)
    ensures |text| > 0 && (text[0] == 't' || text[0] == 'T') ==> r
    ensures r ==> |text| > 0
  {
    var t := Lower(text);
    StartsWith(t, "t") || t == "1" || t == "y"
  }

  /** `list(text)`: one single-character string per character. */
  function Chars(text: string): (r: seq<Json>)
    ensures |r| == |text|
  {
    seq(|text|, i requires 0 <= i < |text| => Str([text[i]]))
  }

  /**
   * Calling the builtin named by a node's type name on the edited text.
   * None stands for a failed conversion: the builtin raised, or there is
   * no builtin of that name ("NoneType", "OrderedDict").
   */
  function Coerce(typeName: string, text: string): (r: Option<Json>)
    ensures r.Some? ==> TypeName(TypeOf(r.value)) == typeName
    ensures typeName in {"bool", "str", "list", "tuple"} ==> r.Some?
    ensures typeName == "int" ==> (r.Some? <==> ParseInt(text).Some?)
  {
    if typeName == "bool" then Some(Bool(BoolFromText(text)))
    else if typeName == "int" then
      match ParseInt(text)
      case Some(i) => Some(Int(i))
      case None => None
    else if typeName == "str" then Some(Str(text))
    else if typeName == "list" then Some(Arr(PyList, Chars(text)))
    else if typeName == "tuple" then Some(Arr(PyTuple, Chars(text)))
    else if typeName == "dict" then (if text == "" then Some(Obj(PlainDict, [])) else None)
    else None
  }

  /** A bool node accepts every text; the result is true exactly for the lenient spellings. */
  lemma BoolEditNeverFails(text: string)
    ensures Coerce("bool", text).Some?
    ensures Coerce("bool", text).value.Bool?
    ensures Coerce("bool", text).value.b <==>
      (|Lower(text)| > 0 && Lower(text)[0] == 't') || Lower(text) == "1" || Lower(text) == "y"
  {
    if |Lower(text)| > 0 {
      assert StartsWith(Lower(text), "t") <==> Lower(text)[0] == 't';
    }
  }

  /** Nodes without a builtin type behind their type name never accept an edit. */
  lemma UnknownTypeRejects(text: string)
    ensures Coerce(NoneTypeName, text) == None
    ensures Coerce("OrderedDict", text) == None
  {
  }

  /** Text that is not an integer leaves an int node's value alone. */
  lemma IntEditNeedsNumber(text: string)
    requires ParseInt(text) == None
    ensures Coerce("int", text) == None
  {
  }

  // ---------------------------------------------------------------------
  // Key safety

  /**
   * The key a key-safe node ends with: under a list or tuple its position
   * label; otherwise the first free name, where the node's own key already
   * counts as taken because the node is attached before the key is chosen.
   */
  function SafeKey(parentType: PyType, siblingKeys: seq<string>, key: string): (r: string)
    ensures IsListType(parentType) ==> r == IndexLabel(|siblingKeys|)
    ensures !IsListType(parentType) ==> r !in siblingKeys && r != key
  {
    if IsListType(parentType) then IndexLabel(|siblingKeys|)
    else FirstFree(KeyTarget(key), siblingKeys + [key])
  }

  /** A key-safe key under a mapping is the requested key with at least one "_1" appended. */
  lemma SafeKeyFresh(parentType: PyType, siblingKeys: seq<string>, key: string)
    requires !IsListType(parentType) && key != ""
    ensures exists k :: k >= 1 && SafeKey(parentType, siblingKeys, key) == Candidate(key, k)
  {
    TakenNameIsExtended(key, siblingKeys + [key]);
  }

  function ChildKeys(kids: seq<Node>): (ks: seq<string>)
    reads kids
    ensures |ks| == |kids|
    ensures forall i :: 0 <= i < |kids| ==> ks[i] == kids[i].key
  {
    seq(|kids|, i requires 0 <= i < |kids| reads kids => kids[i].key)
  }

  /** No later element repeats position `i` before `hi`. */
  predicate LastBefore(s: seq<Node>, i: nat, hi: nat)
    requires i < hi <= |s|
  {
    forall k :: i < k < hi ==> s[k] != s[i]
  }

  /**
   * Every node's row is the position of its last occurrence: what
   * renumbering by position leaves behind, even when a node occurs twice.
   */
  ghost predicate RowsByLastPosition(s: seq<Node>)
    reads s
  {
    forall i :: 0 <= i < |s| && LastBefore(s, i, |s|) ==> s[i].row == i
  }

  /** Without repeats, renumbering gives every node its own position as row. */
  lemma DistinctRows(s: seq<Node>)
    requires Distinct(s) && RowsByLastPosition(s)
    ensures forall i :: 0 <= i < |s| ==> s[i].row == i
  {
    forall i | 0 <= i < |s| ensures s[i].row == i {
      assert LastBefore(s, i, |s|);
    }
  }

  // ---------------------------------------------------------------------
  // Nodes

  /** A node of the item tree (`DataModelItem`). */
  class Node {
    var key: string
    var value: Json
    const rawType: PyType
    var dataType: string
    var parent: Node?
    var row: int
    var children: seq<Node>
    ghost const id: nat

    /** The labels and the link to the parent are as they were. */
    twostate predicate SameLabels()
      reads this
    {
      key == old(key) && value == old(value) && dataType == old(dataType) && parent == old(parent)
    }

    /**
     * A new node attaches itself to its parent first and only then, with
     * key safety, resolves its key; its cached row is reset to 0 after
     * attaching.
     */
    constructor (key: string, value: Json, parent: Node?, keySafety: bool, ghost id: nat)
      requires keySafety ==> parent != null
      modifies parent
      ensures this.value == value && rawType == TypeOf(value) && dataType == TypeName(TypeOf(value))
      ensures this.parent == parent && row == 0 && children == [] && this.id == id
      ensures !keySafety ==> this.key == key
      ensures keySafety ==> this.key == SafeKey(parent.rawType, old(ChildKeys(parent.children)), key)
      ensures parent != null ==> parent.children == old(parent.children) + [this]
      ensures parent != null ==> parent.SameLabels() && parent.row == old(parent.row)
    {
      this.key := key;
      this.value := value;
      rawType := TypeOf(value);
      dataType := TypeName(TypeOf(value));
      this.parent := parent;
      children := [];
      this.id := id;
      new;
      if parent != null {
        ghost var siblings := parent.children;
        ghost var siblingKeys := ChildKeys(siblings);
        parent.AddChild(this, None);
        assert ChildKeys(parent.children) == siblingKeys + [key];
        if keySafety {
          assert this !in siblings;
          if IsListType(parent.rawType) {
            assert parent.children == siblings + [this];
            assert IndexOf(parent.children, this) == |siblingKeys|;
          }
          this.key := GetUniqueKey(key);
        }
      }
      row := 0;
    }

    /**
     * `add_child`: without an index the child is appended and its row is
     * the old child count; with one it is inserted as `list.insert` does
     * and every child's row is renumbered to its position.
     */
    method AddChild(child: Node, index: Option<int>)
      requires child != this
      modifies this, child, if index.Some? then children else []
      ensures child.parent == this
      ensures index.None? ==> children == old(children) + [child] && child.row == |old(children)|
      ensures index.Some? ==> children == Insert(old(children), index.value, child)
      ensures index.Some? ==> RowsByLastPosition(children)
      ensures SameLabels() && (index.None? || this !in old(children) ==> row == old(row))
      ensures child.key == old(child.key) && child.value == old(child.value)
      ensures child.dataType == old(child.dataType) && child.children == old(child.children)
      ensures forall x :: x in old(children) && x != this && x != child ==>
        x.SameLabels() && x.children == old(x.children)
    {
      child.parent := this;
      if index.None? {
        child.row := |children|;
        children := children + [child];
      } else {
        InsertMembers(children, index.value, child);
        children := Insert(children, index.value, child);
        Renumber();
      }
    }

    /** The renumbering loop of `add_child`: every child's row becomes its position. */
    method Renumber()
      modifies children
      ensures children == old(children)
      ensures RowsByLastPosition(children)
      ensures forall x :: x in children ==>
        x.key == old(x.key) && x.value == old(x.value) && x.dataType == old(x.dataType) &&
        x.parent == old(x.parent) && x.children == old(x.children)
    {
      var i := 0;
      while i < |children|
        invariant 0 <= i <= |children| && children == old(children)
        invariant forall j :: 0 <= j < i && LastBefore(children, j, i) ==> children[j].row == j
        invariant forall x :: x in children ==>
          x.key == old(x.key) && x.value == old(x.value) && x.dataType == old(x.dataType) &&
          x.parent == old(x.parent) && x.children == old(x.children)
      {
        children[i].row := i;
        i := i + 1;
      }
    }

    /** `remove_child`: the first occurrence goes; nobody's row is renumbered. */
    method RemoveChild(item: Node)
      requires item in children
      modifies this
      ensures children == Remove(old(children), item)
      ensures SameLabels() && row == old(row)
    {
      children := Remove(children, item);
    }

    /**
     * The two steps of `moveRow` on the parent of the moved child: remove
     * it, then insert it again at the destination with renumbering.
     */
    method MoveChild(k: nat, destination: int)
      requires k < |children| && Distinct(children)
      requires forall x :: x in children ==> x != this && x.parent == this
      modifies this, children
      ensures children == Move(old(children), k, destination)
      ensures Distinct(children)
      ensures forall i :: 0 <= i < |children| ==> children[i].row == i
      ensures SameLabels() && row == old(row)
      ensures forall x :: x in old(children) ==> x.SameLabels() && x.children == old(x.children)
    {
      var item := children[k];
      ghost var before := children;
      DistinctRemove(before, k);
      ghost var rest := RemoveAt(before, k);
      assert item.parent == this && item != this;
      RemoveChild(item);
      label removed:
      assert children == rest;
      AddChild(item, Some(destination));
      assert children == Insert(rest, destination, item);
      assert children == Move(before, k, destination);
      MoveDistinct(before, k, destination);
      DistinctRows(children);
      forall x | x in before ensures x.SameLabels() && x.children == old(x.children) {
        if x == item {
          assert x.parent == this;
        } else {
          assert x in rest && x != this;
          assert old@removed(x.key) == old(x.key) && old@removed(x.value) == old(x.value);
          assert old@removed(x.dataType) == old(x.dataType) && old@removed(x.parent) == old(x.parent);
          assert old@removed(x.children) == old(x.children);
        }
      }
    }

    function GetChildKeys(): (ks: seq<string>)
      reads this, children
      ensures ks == ChildKeys(children)
    {
      ChildKeys(children)
    }

    /**
     * `get_unique_key`: a node under a list or tuple is named by its
     * position; otherwise the resolver runs against the parent's child keys,
     * this node's own key included.
     */
    method GetUniqueKey(target: string) returns (r: string)
      requires parent != null
      requires IsListType(parent.rawType) ==> this in parent.children
      ensures IsListType(parent.rawType) ==> r == IndexLabel(IndexOf(parent.children, this))
      ensures !IsListType(parent.rawType) ==> r == FirstFree(KeyTarget(target), ChildKeys(parent.children))
      ensures !IsListType(parent.rawType) ==> r !in ChildKeys(parent.children)
    {
      if IsListType(parent.rawType) {
        return IndexLabel(IndexOf(parent.children, this));
      }
      var keys := parent.GetChildKeys();
      r := ResolveName(target, keys);
    }

    /**
     * `set_value`: the builtin named by the type name converts the text;
     * when that fails the old value stays.
     */
    method SetValue(text: string)
      modifies this
      ensures Coerce(dataType, text).Some? ==> value == Coerce(dataType, text).value
      ensures Coerce(dataType, text).None? ==> value == old(value)
      ensures key == old(key) && dataType == old(dataType) && parent == old(parent)
      ensures row == old(row) && children == old(children)
    {
      var converted := Coerce(dataType, text);
      if converted.Some? {
        value := converted.value;
      }
    }
  }

  // ---------------------------------------------------------------------
  // Display labels

  /** The key column: a list or tuple element shows its position. */
  function KeyLabel(item: Node): (r: string)
    requires item.parent != null
    requires IsListType(item.parent.rawType) ==> item in item.parent.children
    reads item, item.parent
    ensures IsListType(item.parent.rawType) ==> r == IndexLabel(IndexOf(item.parent.children, item))
    ensures !IsListType(item.parent.rawType) ==> r == item.key
  {
    if IsListType(item.parent.rawType) then IndexLabel(IndexOf(item.parent.children, item)) else item.key
  }

  /**
   * The value column: "None" for None, "True" or "False" for a bool, the
   * item count for a container, `str(value)` for anything else.
   */
  function ValueLabel(item: Node): (r: string)
    reads item
    ensures item.value.Null? ==> r == "None"
    ensures item.value.Bool? && item.rawType == BoolType ==> r == ReprBool(item.value.b)
    ensures !item.value.Null? && SupportsChildren(item.rawType) ==>
      r == "-------- " + IntToStr(|item.children|) + " items --------"
    ensures item.value.Int? && item.rawType == IntType ==> ParseInt(r) == Some(item.value.i)
  {
    if item.value.Null? then "None"
    else if item.rawType == BoolType then
      if item.value.Bool? then
        BoolTitle(item.value.b);
        Title(PyStr(item.value))
      else Title(PyStr(item.value))
    else if SupportsChildren(item.rawType) then "-------- " + IntToStr(|item.children|) + " items --------"
    else PyStr(item.value)
  }

  /**
   * Editing a freshly loaded leaf with the text its value column shows
   * converts back to the value it holds (or, for None, is rejected and
   * keeps it).
   */
  lemma LeafLabelRoundTrip(item: Node)
    requires IsScalar(item.value)
    requires item.rawType == TypeOf(item.value) && item.dataType == TypeName(item.rawType)
    ensures item.value.Null? ==> ValueLabel(item) == "None" && Coerce(item.dataType, ValueLabel(item)) == None
    ensures !item.value.Null? ==> Coerce(item.dataType, ValueLabel(item)) == Some(item.value)
  {
    match item.value
    case Null =>
    case Bool(b) =>
      assert item.dataType == "bool" && ValueLabel(item) == ReprBool(b);
      BoolLabelRoundTrip(b);
    case Int(i) =>
      assert item.dataType == "int";
    case Str(s) =>
      assert item.dataType == "str" && ValueLabel(item) == s;
  }

  lemma BoolLabelRoundTrip(b: bool)
    ensures Coerce("bool", ReprBool(b)) == Some(Bool(b))
  {
    var t := Lower(ReprBool(b));
    assert t == (if b then "true" else "false");
    assert t[0] == (if b then 't' else 'f') && |t| > 1;
    assert StartsWith(t, "t") <==> t[..1] == "t";
  }

  // ---------------------------------------------------------------------
  // Counting

  /** `get_data_length`: the rows a merged insert adds directly under the target. */
  function GetDataLength(v: Json): (r: nat)
    ensures !IsScalar(v) ==> r == |Parts(v)|
    ensures IsScalar(v) ==> r == 1
  {
    match v
    case Obj(_, es) => |es|
    case Arr(_, xs) => |xs|
    case _ => 1
  }

  function Sum(s: seq<nat>): nat {
    if s == [] then 0 else Sum(s[..|s| - 1]) + s[|s| - 1]
  }

  /** `recursive_get_data_length`: the count is passed down with the same merge flag. */
  function RecursiveGetDataLength(v: Json, merge: bool): (r: nat)
    ensures IsScalar(v) ==> r == 1
    ensures !merge && !IsScalar(v) ==> r >= 1 + GetDataLength(v)
    decreases v
  {
    match v
    case Obj(_, es) =>
      var ls := seq(|es|, i requires 0 <= i < |es| => RecursiveGetDataLength(es[i].1, merge));
      if merge then Sum(ls)
      else
        SumAtLeastLength(ls);
        1 + Sum(ls)
    case Arr(_, xs) =>
      var ls := seq(|xs|, i requires 0 <= i < |xs| => RecursiveGetDataLength(xs[i], merge));
      if merge then Sum(ls)
      else
        SumAtLeastLength(ls);
        1 + Sum(ls)
    case _ => 1
  }

  /** A sum of counts that are each at least one is at least the number of counts. */
  lemma {:induction false} SumAtLeastLength(s: seq<nat>)
    requires forall i :: 0 <= i < |s| ==> s[i] >= 1
    ensures Sum(s) >= |s|
    decreases |s|
  {
    if s != [] {
      SumAtLeastLength(s[..|s| - 1]);
    }
  }

  /** A sum never decreases when every term grows. */
  lemma {:induction false} SumMono(a: seq<nat>, b: seq<nat>)
    requires |a| == |b| && forall i :: 0 <= i < |a| ==> a[i] <= b[i]
    ensures Sum(a) <= Sum(b)
    decreases |a|
  {
    if a != [] {
      SumMono(a[..|a| - 1], b[..|b| - 1]);
    }
  }

  /**
   * With merge the count is passed down, so nested wrappers are not
   * counted: it stays below the nodes a merged insert creates, which is
   * the unmerged count less the outer wrapper.
   */
  lemma {:induction false} MergedLengthUndercounts(v: Json)
    ensures RecursiveGetDataLength(v, true) <= RecursiveGetDataLength(v, false)
    ensures !IsScalar(v) ==> RecursiveGetDataLength(v, true) <= RecursiveGetDataLength(v, false) - 1
    decreases v
  {
    match v
    case Obj(_, es) =>
      var a := seq(|es|, i requires 0 <= i < |es| => RecursiveGetDataLength(es[i].1, true));
      var b := seq(|es|, i requires 0 <= i < |es| => RecursiveGetDataLength(es[i].1, false));
      forall i | 0 <= i < |es| ensures a[i] <= b[i] {
        MergedLengthUndercounts(es[i].1);
      }
      SumMono(a, b);
    case Arr(_, xs) =>
      var a := seq(|xs|, i requires 0 <= i < |xs| => RecursiveGetDataLength(xs[i], true));
      var b := seq(|xs|, i requires 0 <= i < |xs| => RecursiveGetDataLength(xs[i], false));
      forall i | 0 <= i < |xs| ensures a[i] <= b[i] {
        MergedLengthUndercounts(xs[i]);
      }
      SumMono(a, b);
    case _ =>
  }

  /** A nested list shows the gap: merging `[[1]]` creates two nodes, but the merged count is one. */
  lemma NestedMergeGap()
    ensures RecursiveGetDataLength(Arr(PyList, [Arr(PyList, [Int(1)])]), true) == 1
    ensures RecursiveGetDataLength(Arr(PyList, [Arr(PyList, [Int(1)])]), false) - 1 == 2
  {
    var inner := Arr(PyList, [Int(1)]);
    assert RecursiveGetDataLength(inner, true) == Sum([1]);
    assert RecursiveGetDataLength(inner, false) == 1 + Sum([1]);
    assert Sum([1]) == Sum([1][..0]) + 1;
  }

  /** The pairs one insert attaches directly under its target. */
  function Pieces(key: string, v: Json, merge: bool): seq<Entry> {
    if merge && !IsScalar(v) then Parts(v) else [(key, v)]
  }

  /** The nodes each part of a container produces. */
  function Lens(v: Json): (ls: seq<nat>)
    ensures |ls| == |Parts(v)|
  {
    seq(|Parts(v)|, i requires 0 <= i < |Parts(v)| => RecursiveGetDataLength(Parts(v)[i].1, false))
  }

  lemma LengthUnfold(v: Json)
    requires !IsScalar(v)
    ensures RecursiveGetDataLength(v, false) == 1 + Sum(Lens(v))
  {
    match v
    case Obj(_, es) =>
      assert Lens(v) == seq(|es|, i requires 0 <= i < |es| => RecursiveGetDataLength(es[i].1, false));
    case Arr(_, xs) =>
      assert Lens(v) == seq(|xs|, i requires 0 <= i < |xs| => RecursiveGetDataLength(xs[i], false));
  }

  lemma SumStep(s: seq<nat>, i: nat)
    requires i < |s|
    ensures Sum(s[..i + 1]) == Sum(s[..i]) + s[i]
  {
    assert s[..i + 1][..i] == s[..i];
  }

  /** The direct pieces of an insert number exactly what `get_data_length` reports. */
  lemma PiecesLength(key: string, v: Json, merge: bool)
    ensures |Pieces(key, v, merge)| == (if merge then GetDataLength(v) else 1)
  {
  }

  // ---------------------------------------------------------------------
  // What a loaded subtree looks like

  /**
   * Node `n`, whose subtree lies in `fp`, holds value `j` as loading builds
   * it: a mapping or a sequence becomes a wrapper node holding an empty
   * dict or list with one child per entry, in order; a scalar becomes a
   * leaf holding it. With `exact` the mapping children keep their keys;
   * without it (key safety) they are only pairwise distinct.
   */
  ghost predicate Holds(n: Node, j: Json, fp: set<Node>, exact: bool)
    reads fp
    decreases j
  {
    n in fp &&
    match j
    case Obj(_, es) =>
      && n.dataType == "dict" && n.value == Obj(PlainDict, [])
      && |n.children| == |es|
      && (forall i :: 0 <= i < |es| ==> n.children[i] in fp)
      && (forall i :: 0 <= i < |es| ==> Holds(n.children[i], es[i].1, fp, exact))
      && (exact ==> forall i :: 0 <= i < |es| ==> n.children[i].key == es[i].0)
      && (!exact ==> forall a, b :: 0 <= a < b < |es| ==> n.children[a].key != n.children[b].key)
    case Arr(_, xs) =>
      && n.dataType == "list" && n.value == Arr(PyList, [])
      && |n.children| == |xs|
      && (forall i :: 0 <= i < |xs| ==> n.children[i] in fp)
      && (forall i :: 0 <= i < |xs| ==> Holds(n.children[i], xs[i], fp, exact))
      && (forall i :: 0 <= i < |xs| ==> n.children[i].key == IndexLabel(i))
    case _ =>
      n.dataType == TypeName(TypeOf(j)) && n.value == j && n.children == []
  }

  lemma {:induction false} HoldsMono(n: Node, j: Json, fp: set<Node>, fp': set<Node>, exact: bool)
    requires Holds(n, j, fp, exact) && fp <= fp'
    ensures Holds(n, j, fp', exact)
    decreases j
  {
    match j
    case Obj(_, es) =>
      forall i | 0 <= i < |es| ensures Holds(n.children[i], es[i].1, fp', exact) {
        HoldsMono(n.children[i], es[i].1, fp, fp', exact);
      }
    case Arr(_, xs) =>
      forall i | 0 <= i < |xs| ensures Holds(n.children[i], xs[i], fp', exact) {
        HoldsMono(n.children[i], xs[i], fp, fp', exact);
      }
    case _ =>
  }

  /**
   * The last node of `kids` was attached for `piece`: it holds the piece's
   * value, and its key is the piece's key, or with key safety the key
   * resolved against the siblings before it.
   */
  ghost predicate Placed(kids: seq<Node>, piece: Entry, fp: set<Node>, keySafety: bool, parentType: PyType)
    reads kids, fp
  {
    && |kids| > 0
    && kids[|kids| - 1] in fp
    && Holds(kids[|kids| - 1], piece.1, fp, !keySafety)
    && kids[|kids| - 1].key ==
       (if keySafety then SafeKey(parentType, ChildKeys(kids[..|kids| - 1]), piece.0) else piece.0)
  }

  lemma PlacedMono(kids: seq<Node>, piece: Entry, fp: set<Node>, fp': set<Node>, keySafety: bool, parentType: PyType)
    requires Placed(kids, piece, fp, keySafety, parentType) && fp <= fp'
    ensures Placed(kids, piece, fp', keySafety, parentType)
  {
    HoldsMono(kids[|kids| - 1], piece.1, fp, fp', !keySafety);
  }

  /** The children from `base` on were attached for the first `count` pieces, in order. */
  ghost predicate AllPlaced(kids: seq<Node>, base: nat, ps: seq<Entry>, count: nat, fp: set<Node>,
                            keySafety: bool, parentType: PyType)
    reads kids, fp
  {
    && base + count <= |kids| && count <= |ps|
    && forall m :: 0 <= m < count ==> Placed(kids[..base + m + 1], ps[m], fp, keySafety, parentType)
  }

  lemma PlacedSingle(kids: seq<Node>, base: nat, piece: Entry, fp: set<Node>, keySafety: bool, parentType: PyType)
    requires |kids| == base + 1 && Placed(kids, piece, fp, keySafety, parentType)
    ensures AllPlaced(kids, base, [piece], 1, fp, keySafety, parentType)
  {
    assert kids[..base + 0 + 1] == kids;
  }

  /** A node appended after `olds` and holding `v` places the single piece `(key, v)`. */
  lemma WrappedPlaced(olds: seq<Node>, w: Node, key: string, v: Json, fp: set<Node>, keySafety: bool,
                      parentType: PyType, keys0: seq<string>)
    requires Holds(w, v, fp, !keySafety) && ChildKeys(olds) == keys0
    requires w.key == (if keySafety then SafeKey(parentType, keys0, key) else key)
    ensures AllPlaced(olds + [w], |olds|, [(key, v)], 1, fp, keySafety, parentType)
  {
    var kids := olds + [w];
    assert kids[..|kids| - 1] == olds;
    assert Placed(kids, (key, v), fp, keySafety, parentType);
    PlacedSingle(kids, |olds|, (key, v), fp, keySafety, parentType);
  }

  /** One more attached piece extends the placed run. */
  lemma AllPlacedExtend(before: seq<Node>, kids: seq<Node>, base: nat, ps: seq<Entry>, i: nat,
                        fp: set<Node>, fp': set<Node>, keySafety: bool, parentType: PyType)
    requires AllPlaced(before, base, ps, i, fp, keySafety, parentType) && |before| == base + i && i < |ps|
    requires |kids| == |before| + 1 && kids[..|before|] == before
    requires AllPlaced(kids, |before|, [ps[i]], 1, fp', keySafety, parentType)
    ensures AllPlaced(kids, base, ps, i + 1, fp + fp', keySafety, parentType)
  {
    forall m | 0 <= m < i + 1 ensures Placed(kids[..base + m + 1], ps[m], fp + fp', keySafety, parentType) {
      if m < i {
        assert kids[..base + m + 1] == before[..base + m + 1];
        PlacedMono(before[..base + m + 1], ps[m], fp, fp + fp', keySafety, parentType);
      } else {
        assert Placed(kids[..|before| + 0 + 1], [ps[i]][0], fp', keySafety, parentType);
        assert |before| + 0 + 1 == base + m + 1;
        PlacedMono(kids[..base + m + 1], ps[m], fp', fp + fp', keySafety, parentType);
      }
    }
  }

  /**
   * Key safety under a mapping keeps sibling keys distinct: whatever was
   * distinct before the insert is still distinct after it.
   */
  lemma KeySafeDistinct(kids: seq<Node>, base: nat, ps: seq<Entry>, fp: set<Node>, parentType: PyType)
    requires !IsListType(parentType)
    requires base + |ps| == |kids|
    requires Distinct(ChildKeys(kids[..base]))
    requires AllPlaced(kids, base, ps, |ps|, fp, true, parentType)
    ensures Distinct(ChildKeys(kids))
  {
    var ks := ChildKeys(kids);
    forall a, b | 0 <= a < b < |kids| ensures ks[a] != ks[b] {
      if b < base {
        assert ChildKeys(kids[..base])[a] == ks[a];
        assert ChildKeys(kids[..base])[b] == ks[b];
      } else {
        PlacedKeyFresh(kids, base, ps, fp, parentType, b);
      }
    }
  }

  /** A key-safe placed child's key differs from every earlier sibling's. */
  lemma PlacedKeyFresh(kids: seq<Node>, base: nat, ps: seq<Entry>, fp: set<Node>, parentType: PyType, b: nat)
    requires !IsListType(parentType)
    requires base <= b < |kids| && base + |ps| == |kids|
    requires AllPlaced(kids, base, ps, |ps|, fp, true, parentType)
    ensures forall a :: 0 <= a < b ==> kids[a].key != kids[b].key
  {
    var m := b - base;
    assert Placed(kids[..base + m + 1], ps[m], fp, true, parentType);
    PlacedAt(kids, b, ps[m], fp, fp, true, parentType);
    forall a | 0 <= a < b ensures kids[a].key != kids[b].key {
      assert ChildKeys(kids[..b])[a] == kids[a].key;
    }
  }

  lemma PlacedAt(kids: seq<Node>, m: nat, piece: Entry, sub: set<Node>, fp: set<Node>, keySafety: bool, parentType: PyType)
    requires m < |kids| && Placed(kids[..m + 1], piece, sub, keySafety, parentType) && sub <= fp
    ensures kids[m] in sub && Holds(kids[m], piece.1, fp, !keySafety)
    ensures kids[m].key == (if keySafety then SafeKey(parentType, ChildKeys(kids[..m]), piece.0) else piece.0)
  {
    var pre := kids[..m + 1];
    assert pre[|pre| - 1] == kids[m] && pre[..|pre| - 1] == kids[..m];
    HoldsMono(kids[m], piece.1, sub, fp, !keySafety);
  }

  /** Every part of a fully placed wrapper is held by the child at its position. */
  lemma PartsHeld(kids: seq<Node>, ps: seq<Entry>, sub: set<Node>, fp: set<Node>, keySafety: bool, parentType: PyType)
    requires sub <= fp && |kids| == |ps|
    requires AllPlaced(kids, 0, ps, |ps|, sub, keySafety, parentType)
    ensures forall m :: 0 <= m < |ps| ==> kids[m] in fp && Holds(kids[m], ps[m].1, fp, !keySafety)
    ensures forall m :: 0 <= m < |ps| ==>
              kids[m].key == (if keySafety then SafeKey(parentType, ChildKeys(kids[..m]), ps[m].0) else ps[m].0)
  {
    forall m | 0 <= m < |ps|
      ensures kids[m] in fp && Holds(kids[m], ps[m].1, fp, !keySafety)
      ensures kids[m].key == (if keySafety then SafeKey(parentType, ChildKeys(kids[..m]), ps[m].0) else ps[m].0)
    {
      PlacedAt(kids, m, ps[m], sub, fp, keySafety, parentType);
    }
  }

  /** A wrapper whose parts were all placed holds the whole container. */
  lemma WrapperHolds(w: Node, v: Json, sub: set<Node>, fp: set<Node>, keySafety: bool)
    requires !IsScalar(v) && sub <= fp && w in fp
    requires w.dataType == (if v.Obj? then "dict" else "list")
    requires w.value == (if v.Obj? then Obj(PlainDict, []) else Arr(PyList, []))
    requires w.rawType == (if v.Obj? then DictType else ListType)
    requires |w.children| == |Parts(v)|
    requires AllPlaced(w.children, 0, Parts(v), |Parts(v)|, sub, keySafety, w.rawType)
    ensures Holds(w, v, fp, !keySafety)
  {
    PartsHeld(w.children, Parts(v), sub, fp, keySafety, w.rawType);
    if v.Obj? {
      ObjWrapperHolds(w, v.mapKind, v.entries, fp, keySafety);
    } else {
      ArrWrapperHolds(w, v.seqKind, v.items, fp, keySafety);
    }
  }

  lemma ObjWrapperHolds(w: Node, kind: MapKind, es: seq<Entry>, fp: set<Node>, keySafety: bool)
    requires w in fp && w.dataType == "dict" && w.value == Obj(PlainDict, []) && w.rawType == DictType
    requires |w.children| == |es|
    requires forall m :: 0 <= m < |es| ==> w.children[m] in fp && Holds(w.children[m], es[m].1, fp, !keySafety)
    requires forall m :: 0 <= m < |es| ==>
               w.children[m].key == (if keySafety then SafeKey(DictType, ChildKeys(w.children[..m]), es[m].0) else es[m].0)
    ensures Holds(w, Obj(kind, es), fp, !keySafety)
  {
    var kids := w.children;
    if keySafety {
      forall a, b | 0 <= a < b < |es| ensures kids[a].key != kids[b].key {
        assert ChildKeys(kids[..b])[a] == kids[a].key;
      }
    }
  }

  lemma ArrWrapperHolds(w: Node, kind: SeqKind, xs: seq<Json>, fp: set<Node>, keySafety: bool)
    requires w in fp && w.dataType == "list" && w.value == Arr(PyList, []) && w.rawType == ListType
    requires |w.children| == |xs|
    requires forall m :: 0 <= m < |xs| ==> w.children[m] in fp && Holds(w.children[m], xs[m], fp, !keySafety)
    requires forall m :: 0 <= m < |xs| ==>
               w.children[m].key == (if keySafety then SafeKey(ListType, ChildKeys(w.children[..m]), IndexLabel(m)) else IndexLabel(m))
    ensures Holds(w, Arr(kind, xs), fp, !keySafety)
  {
    var kids := w.children;
    forall m | 0 <= m < |xs| ensures kids[m].key == IndexLabel(m) {
      assert |ChildKeys(kids[..m])| == m;
    }
  }

  // ---------------------------------------------------------------------
  // The model

  /** The item model (`DataModel`): the root node and the tree under it. */
  class DataModel {
    var root: Node
    ghost var Repr: set<Node>
    ghost var nextId: nat

    /**
     * Every node reachable as a child is in Repr and points back to its
     * parent; children never repeat; ids grow from parent to child, which
     * is what makes reading out terminate.
     */
    ghost predicate Valid()
      reads this, Repr
    {
      && root in Repr
      && (forall n :: n in Repr ==> n.id < nextId && Distinct(n.children))
      && (forall n, c :: n in Repr && c in n.children ==> c in Repr && c.parent == n && c.id > n.id)
    }

    /** An empty model: a root holding None. */
    constructor ()
      ensures Valid() && fresh(Repr)
      ensures root.value == Null && root.children == []
    {
      root := new Node("", Null, null, false, 0);
      Repr := {root};
      nextId := 1;
    }

    // -------------------------------------------------------------------
    // Reading out (`get_data`, `recursive_fill_data`)

    /**
     * What `recursive_fill_data` produces for one child: a mapping or
     * sequence type name starts a fresh OrderedDict or list filled from the
     * node's children; any other node contributes its stored value.
     */
    ghost function ChildValue(c: Node): Option<Json>
      requires Valid() && c in Repr
      reads this, Repr
      decreases nextId - c.id, 1, 0
    {
      if c.dataType in DictTypeNames then FillFrom(Obj(OrderedDict, []), c, 0)
      else if c.dataType in ListTypeNames then FillFrom(Arr(PyList, []), c, 0)
      else Some(c.value)
    }

    /** Filling `out` from the children of `n` from position `i` on; None when Python would raise. */
    ghost function FillFrom(out: Json, n: Node, i: nat): Option<Json>
      requires Valid() && n in Repr && i <= |n.children|
      reads this, Repr
      decreases nextId - n.id, 0, |n.children| - i
    {
      if i == |n.children| then Some(out)
      else
        match ChildValue(n.children[i])
        case None => None
        case Some(v) =>
          match Put(out, n.children[i].key, v)
          case None => None
          case Some(o) => FillFrom(o, n, i + 1)
    }

    /** Filling `out` from each top-level node's children in turn. */
    ghost function FillRoot(out: Json, i: nat): Option<Json>
      requires Valid() && i <= |root.children|
      reads this, Repr
      decreases |root.children| - i
    {
      if i == |root.children| then Some(out)
      else
        match FillFrom(out, root.children[i], 0)
        case None => None
        case Some(o) => FillRoot(o, i + 1)
    }

    /** The value `get_data` returns, None when it raises. */
    ghost function Data(): Option<Json>
      requires Valid()
      reads this, Repr
    {
      FillRoot(Default(root.rawType), 0)
    }

    /** `get_data`: a fresh object of the root's type, filled from every top-level node. */
    method GetData() returns (r: Option<Json>)
      requires Valid()
      ensures r == Data()
    {
      var out := Default(root.rawType);
      var i := 0;
      while i < |root.children|
        invariant 0 <= i <= |root.children|
        invariant Data() == FillRoot(out, i)
      {
        var filled := RecursiveFillData(out, root.children[i]);
        if filled.None? {
          return None;
        }
        out := filled.value;
        i := i + 1;
      }
      return Some(out);
    }

    /** One child of the fill loop: its value is stored, or the fill fails. */
    lemma FillStep(acc: Json, n: Node, i: nat)
      requires Valid() && n in Repr && i < |n.children|
      ensures n.children[i] in Repr
      ensures ChildValue(n.children[i]).None? ==> FillFrom(acc, n, i).None?
      ensures ChildValue(n.children[i]).Some? ==>
        var stored := Put(acc, n.children[i].key, ChildValue(n.children[i]).value);
        (stored.None? ==> FillFrom(acc, n, i).None?) &&
        (stored.Some? ==> FillFrom(acc, n, i) == FillFrom(stored.value, n, i + 1))
    {
      assert n.children[i] in n.children;
    }

    /**
     * The value one child contributes inside `recursive_fill_data`: a
     * container is filled by the recursive call, anything else gives its
     * stored value.
     */
    method ChildData(child: Node) returns (r: Option<Json>)
      requires Valid() && child in Repr
      ensures r == ChildValue(child)
      decreases nextId - child.id, 1
    {
      if child.dataType in DictTypeNames {
        r := RecursiveFillData(Obj(OrderedDict, []), child);
      } else if child.dataType in ListTypeNames {
        r := RecursiveFillData(Arr(PyList, []), child);
      } else {
        r := Some(child.value);
      }
    }

    /** `recursive_fill_data`: store each child's rebuilt value into `out`, in order. */
    method RecursiveFillData(out: Json, item: Node) returns (r: Option<Json>)
      requires Valid() && item in Repr
      ensures r == FillFrom(out, item, 0)
      decreases nextId - item.id, 0
    {
      var acc := out;
      var i := 0;
      while i < |item.children|
        invariant 0 <= i <= |item.children|
        invariant FillFrom(out, item, 0) == FillFrom(acc, item, i)
      {
        var child := item.children[i];
        FillStep(acc, item, i);
        var filled := ChildData(child);
        if filled.None? {
          return None;
        }
        var v := filled.value;
        var stored := Put(acc, child.key, v);
        if stored.None? {
          return None;
        }
        assert FillFrom(acc, item, i) == FillFrom(stored.value, item, i + 1);
        acc := stored.value;
        i := i + 1;
      }
      return Some(acc);
    }

    // -------------------------------------------------------------------
    // Loading (`set_data`, `add_data_to_model`)

    /** Constructing one `DataModelItem` under `parentItem`. */
    method NewItem(key: string, value: Json, parentItem: Node, keySafety: bool) returns (n: Node)
      requires Valid() && parentItem in Repr
      modifies this, parentItem
      ensures Valid() && fresh(n) && Repr == old(Repr) + {n} && nextId == old(nextId) + 1
      ensures n.value == value && n.rawType == TypeOf(value) && n.dataType == TypeName(TypeOf(value))
      ensures n.children == [] && n.parent == parentItem && n.row == 0
      ensures !keySafety ==> n.key == key
      ensures keySafety ==> n.key == SafeKey(parentItem.rawType, old(ChildKeys(parentItem.children)), key)
      ensures parentItem.children == old(parentItem.children) + [n]
      ensures parentItem.SameLabels() && parentItem.row == old(parentItem.row)
      ensures root == old(root)
    {
      n := new Node(key, value, parentItem, keySafety, nextId);
      Repr := Repr + {n};
      nextId := nextId + 1;
    }

    /**
     * Attaching the parts of container `v` under `target` one by one, each
     * as a non-merging insert.
     */
    method AddPieces(target: Node, v: Json, keySafety: bool) returns (ghost sub: set<Node>)
      requires Valid() && target in Repr && !IsScalar(v)
      modifies this, target
      ensures Valid() && fresh(sub) && Repr == old(Repr) + sub && root == old(root)
      ensures target.SameLabels() && target.row == old(target.row)
      ensures |target.children| == |old(target.children)| + |Parts(v)|
      ensures target.children[..|old(target.children)|] == old(target.children)
      ensures AllPlaced(target.children, |old(target.children)|, Parts(v), |Parts(v)|, sub, keySafety, target.rawType)
      ensures nextId == old(nextId) + Sum(Lens(v))
      decreases v, 1
    {
      var ps := Parts(v);
      ghost var base := |target.children|;
      ghost var repr0, kids0, next0 := Repr, target.children, nextId;
      sub := {};
      var i := 0;
      while i < |ps|
        invariant 0 <= i <= |ps|
        invariant Valid() && target in Repr && fresh(sub) && Repr == repr0 + sub && root == old(root)
        invariant target.SameLabels() && target.row == old(target.row)
        invariant |target.children| == base + i && target.children[..base] == kids0
        invariant AllPlaced(target.children, base, ps, i, sub, keySafety, target.rawType)
        invariant nextId == next0 + Sum(Lens(v)[..i])
      {
        ghost var fpi := AddPiece(target, v, i, keySafety, base, sub);
        sub := sub + fpi;
        SumStep(Lens(v), i);
        i := i + 1;
      }
      assert Lens(v)[..i] == Lens(v);
    }

    /** One round of the parts loop: part `i` of `v` goes in as a non-merging insert. */
    method AddPiece(target: Node, v: Json, i: nat, keySafety: bool, ghost base: nat, ghost sub: set<Node>)
      returns (ghost fp: set<Node>)
      requires Valid() && target in Repr && !IsScalar(v) && i < |Parts(v)|
      requires sub <= Repr && target !in sub && |target.children| == base + i
      requires AllPlaced(target.children, base, Parts(v), i, sub, keySafety, target.rawType)
      modifies this, target
      ensures Valid() && fresh(fp) && Repr == old(Repr) + fp && root == old(root)
      ensures target.SameLabels() && target.row == old(target.row)
      ensures |target.children| == base + i + 1 && target.children[..base + i] == old(target.children)
      ensures target.children[..base] == old(target.children)[..base]
      ensures AllPlaced(target.children, base, Parts(v), i + 1, sub + fp, keySafety, target.rawType)
      ensures nextId == old(nextId) + Lens(v)[i]
      decreases v, 0
    {
      var ps := Parts(v);
      ghost var before := target.children;
      assert target !in before;
      fp := AddDataToModel(ps[i].0, ps[i].1, target, false, keySafety);
      assert AllPlaced(before, base, ps, i, sub, keySafety, target.rawType);
      assert Pieces(ps[i].0, ps[i].1, false) == [ps[i]];
      AllPlacedExtend(before, target.children, base, ps, i, sub, fp, keySafety, target.rawType);
    }

    /**
     * `add_data_to_model`: without merge one node (a wrapper for a
     * container, a leaf otherwise) is attached under `parentItem`; with
     * merge a container's parts are attached directly. Key safety reaches
     * every descendant.
     */
    method AddDataToModel(key: string, v: Json, parentItem: Node, merge: bool, keySafety: bool)
      returns (ghost fp: set<Node>)
      requires Valid() && parentItem in Repr
      modifies this, parentItem
      ensures Valid() && fresh(fp) && Repr == old(Repr) + fp && root == old(root)
      ensures parentItem.SameLabels() && parentItem.row == old(parentItem.row)
      ensures |parentItem.children| == |old(parentItem.children)| + (if merge then GetDataLength(v) else 1)
      ensures |parentItem.children| == |old(parentItem.children)| + |Pieces(key, v, merge)|
      ensures parentItem.children[..|old(parentItem.children)|] == old(parentItem.children)
      ensures AllPlaced(parentItem.children, |old(parentItem.children)|, Pieces(key, v, merge),
                        |Pieces(key, v, merge)|, fp, keySafety, parentItem.rawType)
      ensures nextId == old(nextId) +
        (if merge && !IsScalar(v) then RecursiveGetDataLength(v, false) - 1 else RecursiveGetDataLength(v, false))
      decreases v, 4
    {
      if merge && !IsScalar(v) {
        fp := AddPieces(parentItem, v, keySafety);
        assert Pieces(key, v, merge) == Parts(v);
        LengthUnfold(v);
      } else if IsScalar(v) {
        fp := AddLeaf(key, v, parentItem, keySafety);
      } else {
        fp := AddWrapped(key, v, parentItem, keySafety);
      }
    }

    /** The leaf branch of `add_data_to_model`. */
    method AddLeaf(key: string, v: Json, parentItem: Node, keySafety: bool) returns (ghost fp: set<Node>)
      requires Valid() && parentItem in Repr && IsScalar(v)
      modifies this, parentItem
      ensures Valid() && fresh(fp) && Repr == old(Repr) + fp && root == old(root)
      ensures parentItem.SameLabels() && parentItem.row == old(parentItem.row)
      ensures |parentItem.children| == |old(parentItem.children)| + 1
      ensures parentItem.children[..|old(parentItem.children)|] == old(parentItem.children)
      ensures AllPlaced(parentItem.children, |old(parentItem.children)|, [(key, v)], 1, fp, keySafety, parentItem.rawType)
      ensures nextId == old(nextId) + 1
    {
      ghost var base := |parentItem.children|;
      ghost var keys0 := ChildKeys(parentItem.children);
      assert parentItem !in parentItem.children;
      var n := NewItem(key, v, parentItem, keySafety);
      fp := {n};
      assert parentItem.children[..base] == old(parentItem.children);
      assert ChildKeys(parentItem.children[..base]) == keys0;
      assert Holds(n, v, fp, !keySafety);
      PlacedSingle(parentItem.children, base, (key, v), fp, keySafety, parentItem.rawType);
    }

    /** The container branch of `add_data_to_model` without merge: a wrapper node, then its parts. */
    method AddWrapped(key: string, v: Json, parentItem: Node, keySafety: bool) returns (ghost fp: set<Node>)
      requires Valid() && parentItem in Repr && !IsScalar(v)
      modifies this, parentItem
      ensures Valid() && fresh(fp) && Repr == old(Repr) + fp && root == old(root)
      ensures parentItem.SameLabels() && parentItem.row == old(parentItem.row)
      ensures |parentItem.children| == |old(parentItem.children)| + 1
      ensures parentItem.children[..|old(parentItem.children)|] == old(parentItem.children)
      ensures AllPlaced(parentItem.children, |old(parentItem.children)|, [(key, v)], 1, fp, keySafety, parentItem.rawType)
      ensures nextId == old(nextId) + RecursiveGetDataLength(v, false)
      decreases v, 3
    {
      ghost var base := |parentItem.children|;
      ghost var keys0 := ChildKeys(parentItem.children);
      assert parentItem !in parentItem.children;
      var w := NewItem(key, if v.Obj? then Obj(PlainDict, []) else Arr(PyList, []), parentItem, keySafety);
      ghost var mid := parentItem.children;
      ghost var olds := mid[..base];
      assert olds == old(parentItem.children);
      assert ChildKeys(olds) == keys0;
      assert w !in olds;
      ghost var sub := FillWrapper(w, v, keySafety);
      fp := {w} + sub;
      assert nextId == old(nextId) + RecursiveGetDataLength(v, false) by {
        LengthUnfold(v);
      }
      assert mid == olds + [w];
      assert AllPlaced(mid, base, [(key, v)], 1, fp, keySafety, parentItem.rawType) by {
        WrappedPlaced(olds, w, key, v, fp, keySafety, parentItem.rawType, keys0);
      }
    }

    /** Loading the parts of `v` under a fresh wrapper makes the wrapper hold `v`. */
    method FillWrapper(w: Node, v: Json, keySafety: bool) returns (ghost sub: set<Node>)
      requires Valid() && w in Repr && !IsScalar(v) && w.children == []
      requires w.dataType == (if v.Obj? then "dict" else "list")
      requires w.value == (if v.Obj? then Obj(PlainDict, []) else Arr(PyList, []))
      requires w.rawType == (if v.Obj? then DictType else ListType)
      modifies this, w
      ensures Valid() && fresh(sub) && Repr == old(Repr) + sub && root == old(root)
      ensures w.SameLabels() && w.row == old(w.row)
      ensures Holds(w, v, {w} + sub, !keySafety)
      ensures nextId == old(nextId) + Sum(Lens(v))
      decreases v, 2
    {
      sub := AddPieces(w, v, keySafety);
      assert w.children[..0] == [];
      WrapperHolds(w, v, sub, {w} + sub, keySafety);
    }

    /**
     * `set_data`: a new root holding the empty value of `v`'s type; unless
     * `v` is None, `v` is loaded under it without merge or key safety.
     */
    method SetData(v: Json)
      modifies this
      ensures Valid() && fresh(root)
      ensures root.rawType == TypeOf(v) && root.value == Default(TypeOf(v))
      ensures v.Null? ==> root.children == []
      ensures !v.Null? ==> |root.children| == 1 && Holds(root.children[0], v, Repr - {root}, true)
      ensures Data() == RoundTrip(v)
    {
      root := new Node("", Default(TypeOf(v)), null, false, 0);
      Repr := {root};
      nextId := 1;
      if v.Null? {
        return;
      }
      ghost var fp := AddDataToModel("", v, root, false, false);
      assert Pieces("", v, false) == [("", v)];
      assert Placed(root.children[..0 + 0 + 1], [("", v)][0], fp, false, root.rawType);
      assert root.children[..1] == root.children;
      assert Repr - {root} == fp;
      RootRoundTrip(v, fp);
    }

    /** A root whose one child holds `v` reads out as RoundTrip(v). */
    lemma RootRoundTrip(v: Json, fp: set<Node>)
      requires Valid() && fp <= Repr
      requires root.rawType == TypeOf(v) && |root.children| == 1
      requires Holds(root.children[0], v, fp, true)
      ensures Data() == RoundTrip(v)
    {
      var w := root.children[0];
      var d := Default(root.rawType);
      assert w in Repr;
      FillRootLast(d);
      assert Data() == (match FillFrom(d, w, 0) case None => None case Some(o) => FillRoot(o, 1));
      match v
      case Obj(kind, es) =>
        assert d == Obj(kind, []);
        FillEntries(w, v, fp, kind, [], 0);
        assert NormEntries(es)[0..] == NormEntries(es);
      case Arr(PyList, xs) =>
        assert d == Arr(PyList, []);
        FillItems(w, v, fp, [], 0);
        assert [] + NormItems(xs)[0..] == NormItems(xs);
      case Arr(PyTuple, xs) =>
        assert d == Arr(PyTuple, []);
        if xs != [] {
          FillTupleFails(w, []);
        }
      case _ =>
        assert w.children == [];
    }

    lemma FillRootLast(o: Json)
      requires Valid() && |root.children| == 1
      ensures FillRoot(o, 1) == Some(o)
    {
    }

    /** A node that holds `j` exactly is read out as Norm(j). */
    lemma {:induction false} HoldsValue(n: Node, j: Json, fp: set<Node>)
      requires Valid() && fp <= Repr && Holds(n, j, fp, true)
      ensures ChildValue(n) == Some(Norm(j))
      decreases j, 1
    {
      assert n in Repr;
      match j
      case Obj(_, es) =>
        assert n.dataType == "dict";
        assert ChildValue(n) == FillFrom(Obj(OrderedDict, []), n, 0);
        FillEntries(n, j, fp, OrderedDict, [], 0);
        assert NormEntries(es)[0..] == NormEntries(es);
        assert Norm(j) == Obj(OrderedDict, AssignAll([], NormEntries(es)));
      case Arr(_, xs) =>
        assert n.dataType == "list";
        assert ChildValue(n) == FillFrom(Arr(PyList, []), n, 0);
        FillItems(n, j, fp, [], 0);
        assert [] + NormItems(xs)[0..] == NormItems(xs);
        assert Norm(j) == Arr(PyList, NormItems(xs));
      case _ =>
        assert n.dataType !in DictTypeNames && n.dataType !in ListTypeNames;
    }

    /** Filling a mapping from the children of a node holding a mapping assigns the normalised entries in order. */
    lemma {:induction false} FillEntries(n: Node, j: Json, fp: set<Node>, kind: MapKind, acc: seq<Entry>, i: nat)
      requires Valid() && fp <= Repr && Holds(n, j, fp, true) && j.Obj? && i <= |j.entries|
      ensures FillFrom(Obj(kind, acc), n, i) == Some(Obj(kind, AssignAll(acc, NormEntries(j.entries)[i..])))
      decreases j, 0, |j.entries| - i
    {
      var es := j.entries;
      if i < |es| {
        HoldsValue(n.children[i], es[i].1, fp);
        var acc' := Assign(acc, es[i].0, Norm(es[i].1));
        FillEntries(n, j, fp, kind, acc', i + 1);
        assert NormEntries(es)[i..][1..] == NormEntries(es)[i + 1..];
      }
    }

    /** Filling a list from the children of a node holding a sequence appends the normalised items. */
    lemma {:induction false} FillItems(n: Node, j: Json, fp: set<Node>, acc: seq<Json>, i: nat)
      requires Valid() && fp <= Repr && Holds(n, j, fp, true) && j.Arr? && i <= |j.items|
      ensures FillFrom(Arr(PyList, acc), n, i) == Some(Arr(PyList, acc + NormItems(j.items)[i..]))
      decreases j, 0, |j.items| - i
    {
      var xs := j.items;
      if i == |xs| {
        assert acc + NormItems(xs)[i..] == acc;
      } else {
        HoldsValue(n.children[i], xs[i], fp);
        FillListStep(n, acc, i, Norm(xs[i]));
        FillItems(n, j, fp, acc + [Norm(xs[i])], i + 1);
        NormItemsStep(acc, xs, i);
      }
    }

    /** One step of filling a list: the child's value is appended. */
    lemma FillListStep(n: Node, acc: seq<Json>, i: nat, v: Json)
      requires Valid() && n in Repr && i < |n.children| && ChildValue(n.children[i]) == Some(v)
      ensures FillFrom(Arr(PyList, acc), n, i) == FillFrom(Arr(PyList, acc + [v]), n, i + 1)
    {
      assert Put(Arr(PyList, acc), n.children[i].key, v) == Some(Arr(PyList, acc + [v]));
    }

    /** A tuple cannot be appended to: filling one from any child raises. */
    lemma FillTupleFails(n: Node, acc: seq<Json>)
      requires Valid() && n in Repr && |n.children| > 0
      ensures FillFrom(Arr(PyTuple, acc), n, 0) == None
    {
    }

    // -------------------------------------------------------------------
    // Editing (`setData`, `removeRow`, `moveRow`)

    /**
     * `setData`: empty text and roles other than editing are refused;
     * column 0 renames, column 1 converts the value, column 2 renames the
     * type. A value edit reports false even when it succeeded, because
     * `set_value` returns None.
     */
    method EditCell(item: Node, column: int, text: string, editRole: bool) returns (ok: bool)
      requires Valid() && item in Repr
      modifies item
      ensures Valid()
      ensures ok <==> text != "" && editRole && column != 1
      ensures item.parent == old(item.parent) && item.children == old(item.children) && item.row == old(item.row)
      ensures text == "" || !editRole ==> item.key == old(item.key) && item.value == old(item.value) && item.dataType == old(item.dataType)
      ensures text != "" && editRole && column == 0 ==> item.key == text
      ensures text != "" && editRole && column == 1 ==>
        item.value == (if Coerce(old(item.dataType), text).Some? then Coerce(old(item.dataType), text).value else old(item.value))
      ensures text != "" && editRole && column == 2 ==> item.dataType == text
      ensures text != "" && editRole && column != 0 ==> item.key == old(item.key)
      ensures text != "" && editRole && column != 1 ==> item.value == old(item.value)
      ensures text != "" && editRole && column != 2 ==> item.dataType == old(item.dataType)
    {
      if text == "" || !editRole {
        return false;
      }
      if column == 0 {
        item.key := text;
      }
      if column == 1 {
        item.SetValue(text);
        return false;
      }
      if column == 2 {
        item.dataType := text;
      }
      return true;
    }

    /**
     * `removeRow`: an index outside the parent's children is refused;
     * otherwise exactly that child is detached. The remaining children keep
     * their order and their (now stale) cached rows.
     */
    method RemoveRow(row: int, parentItem: Node) returns (ok: bool)
      requires Valid() && parentItem in Repr
      modifies parentItem
      ensures Valid()
      ensures ok <==> 0 <= row < |old(parentItem.children)|
      ensures ok ==> parentItem.children == old(parentItem.children[..row] + parentItem.children[row + 1..])
      ensures !ok ==> parentItem.children == old(parentItem.children)
      ensures parentItem.SameLabels() && parentItem.row == old(parentItem.row)
      ensures forall x :: x in parentItem.children ==> x.row == old(x.row)
    {
      if !(0 <= row < |parentItem.children|) {
        return false;
      }
      var item := parentItem.children[row];
      ghost var kids := parentItem.children;
      DistinctRemove(kids, row);
      item.parent.RemoveChild(item);
      RemoveAtMembers(kids, row);
      ValidAfterReorder(parentItem);
      return true;
    }

    /** Children that form the same multiset are the same nodes. */
    static lemma SameMembers(a: seq<Node>, b: seq<Node>)
      requires multiset(a) == multiset(b)
      ensures forall c :: c in a ==> c in b
    {
      forall c | c in a ensures c in b {
        assert c in multiset(a);
      }
    }

    /**
     * Reordering one node's children, without touching any other node's
     * children or any parent link, keeps the model valid.
     */
    twostate lemma ValidAfterReorder(p: Node)
      requires old(Valid()) && p in old(Repr)
      requires Repr == old(Repr) && nextId == old(nextId) && root == old(root)
      requires forall n :: n in Repr && n != p ==> n.children == old(n.children)
      requires forall c :: c in Repr ==> c.parent == old(c.parent)
      requires (forall c :: c in p.children ==> c in old(p.children)) && Distinct(p.children)
      ensures Valid()
    {
      forall n, c | n in Repr && c in n.children ensures c in Repr && c.parent == n && c.id > n.id {
        if n == p {
          assert c in old(p.children);
        }
      }
    }

    /**
     * A reorder that changed only the parent and the labels-preserving
     * children leaves every other node's children and every parent link.
     */
    twostate lemma FrameAfterMove(p: Node)
      requires Repr == old(Repr) && p in Repr
      requires forall x :: x in old(p.children) ==> x.SameLabels() && x.children == old(x.children)
      requires forall n :: n in Repr && n != p && n !in old(p.children) ==> n.children == old(n.children) && n.parent == old(n.parent)
      requires p.parent == old(p.parent)
      ensures forall n :: n in Repr && n != p ==> n.children == old(n.children)
      ensures forall c :: c in Repr ==> c.parent == old(c.parent)
    {
      forall n | n in Repr && n != p ensures n.children == old(n.children) {
        if n in old(p.children) {
          assert n.SameLabels();
        }
      }
      forall c | c in Repr ensures c.parent == old(c.parent) {
        if c in old(p.children) {
          assert c.SameLabels();
        }
      }
    }

    /**
     * `moveRow`: the child at `sourceRow` is taken out and inserted again,
     * as `list.insert` does, into its own parent; the destination parent
     * plays no part. Every child's row is renumbered.
     */
    method MoveRow(sourceParent: Node, sourceRow: int, destinationParent: Node, destinationChild: int)
      returns (ok: bool)
      requires Valid() && sourceParent in Repr
      modifies sourceParent, sourceParent.children
      ensures Valid()
      ensures ok <==> 0 <= sourceRow < |old(sourceParent.children)|
      ensures !ok ==> sourceParent.children == old(sourceParent.children)
      ensures ok ==> sourceParent.children == Move(old(sourceParent.children), sourceRow, destinationChild)
      ensures ok ==> forall i :: 0 <= i < |sourceParent.children| ==> sourceParent.children[i].row == i
      ensures !ok ==> forall x :: x in sourceParent.children ==> x.row == old(x.row)
      ensures sourceParent.SameLabels() && sourceParent.row == old(sourceParent.row)
      ensures forall x :: x in old(sourceParent.children) ==>
        x.SameLabels() && x.children == old(x.children)
    {
      if !(0 <= sourceRow < |sourceParent.children|) {
        return false;
      }
      ghost var kids := sourceParent.children;
      assert Distinct(kids);
      assert forall x :: x in kids ==> x != sourceParent && x.parent == sourceParent;
      sourceParent.MoveChild(sourceRow, destinationChild);
      MovePermutes(kids, sourceRow, destinationChild);
      SameMembers(sourceParent.children, kids);
      FrameAfterMove(sourceParent);
      ValidAfterReorder(sourceParent);
      return true;
    }
  }
}
