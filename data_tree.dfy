// The second editor widget: a three-column item model whose rows hold only
// text (the key, the value as `str` prints it, and the type's name).
// Loading appends rows under a parent item; reading out parses the text of
// every leaf back according to its type column.

module DataTree {
  import opened Wrappers
  import opened JsonValue
  import opened PyText
  import opened PyLists
  import opened UniqueKeys

  /** One row of the item model: its key, value and type cells and the rows under it. */
  datatype Row = Row(key: string, value: string, typeName: string, children: seq<Row>)

  /** Row numbers from the top of the model down; the empty path is the invisible root item. */
  type Path = seq<nat>

  /** Type names whose rows may hold children. */
  const ChildTypeNames: set<string> := ListTypeNames + DictTypeNames

  /** The key column of a run of rows. */
  function RowKeys(rs: seq<Row>): (ks: seq<string>)
    ensures |ks| == |rs|
    ensures forall i :: 0 <= i < |rs| ==> ks[i] == rs[i].key
  {
    seq(|rs|, i requires 0 <= i < |rs| => rs[i].key)
  }

  // ---------------------------------------------------------------------
  // Addressing rows

  predicate IsPath(rows: seq<Row>, p: Path)
    decreases |p|
  {
    p == [] || (p[0] < |rows| && IsPath(rows[p[0]].children, p[1..]))
  }

  /** The rows directly under the item at `p`. */
  function ChildrenAt(rows: seq<Row>, p: Path): seq<Row>
    requires IsPath(rows, p)
    decreases |p|
  {
    if p == [] then rows else ChildrenAt(rows[p[0]].children, p[1..])
  }

  /** The row at `p`. */
  function RowAt(rows: seq<Row>, p: Path): Row
    requires IsPath(rows, p) && p != []
    decreases |p|
  {
    if |p| == 1 then rows[p[0]] else RowAt(rows[p[0]].children, p[1..])
  }

  /** The model with the rows under the item at `p` replaced by `kids`. */
  function WithChildren(rows: seq<Row>, p: Path, kids: seq<Row>): seq<Row>
    requires IsPath(rows, p)
    decreases |p|
  {
    if p == [] then kids
    else rows[p[0] := rows[p[0]].(children := WithChildren(rows[p[0]].children, p[1..], kids))]
  }

  lemma {:induction false} WithChildrenAt(rows: seq<Row>, p: Path, kids: seq<Row>)
    requires IsPath(rows, p)
    ensures IsPath(WithChildren(rows, p, kids), p)
    ensures ChildrenAt(WithChildren(rows, p, kids), p) == kids
    decreases |p|
  {
    if p != [] {
      WithChildrenAt(rows[p[0]].children, p[1..], kids);
    }
  }

  /** Putting back the rows an item already has changes nothing. */
  lemma {:induction false} WithChildrenSame(rows: seq<Row>, p: Path)
    requires IsPath(rows, p)
    ensures WithChildren(rows, p, ChildrenAt(rows, p)) == rows
    decreases |p|
  {
    if p != [] {
      WithChildrenSame(rows[p[0]].children, p[1..]);
    }
  }

  /** A second replacement at the same item undoes the first. */
  lemma {:induction false} WithChildrenTwice(rows: seq<Row>, p: Path, a: seq<Row>, b: seq<Row>)
    requires IsPath(rows, p)
    ensures IsPath(WithChildren(rows, p, a), p)
    ensures WithChildren(WithChildren(rows, p, a), p, b) == WithChildren(rows, p, b)
    decreases |p|
  {
    WithChildrenAt(rows, p, a);
    if p != [] {
      WithChildrenTwice(rows[p[0]].children, p[1..], a, b);
    }
  }

  /** The `j`-th row under an item is addressed by extending its path with `j`. */
  lemma {:induction false} ChildPath(rows: seq<Row>, p: Path, j: nat)
    requires IsPath(rows, p) && j < |ChildrenAt(rows, p)|
    ensures IsPath(rows, p + [j])
    ensures RowAt(rows, p + [j]) == ChildrenAt(rows, p)[j]
    ensures ChildrenAt(rows, p + [j]) == ChildrenAt(rows, p)[j].children
    decreases |p|
  {
    if p != [] {
      assert (p + [j])[0] == p[0] && (p + [j])[1..] == p[1..] + [j];
      ChildPath(rows[p[0]].children, p[1..], j);
    }
  }

  /** Replacing the rows under a child is replacing that child under its parent. */
  lemma {:induction false} WithChildrenBelow(rows: seq<Row>, p: Path, j: nat, kids: seq<Row>)
    requires IsPath(rows, p) && j < |ChildrenAt(rows, p)|
    ensures IsPath(rows, p + [j])
    ensures WithChildren(rows, p + [j], kids) ==
            WithChildren(rows, p, ChildrenAt(rows, p)[j := ChildrenAt(rows, p)[j].(children := kids)])
    decreases |p|
  {
    ChildPath(rows, p, j);
    if p != [] {
      assert (p + [j])[0] == p[0] && (p + [j])[1..] == p[1..] + [j];
      WithChildrenBelow(rows[p[0]].children, p[1..], j, kids);
    }
  }

  /** Appending rows anywhere keeps every existing row where it was. */
  lemma {:induction false} PathKept(rows: seq<Row>, p: Path, extra: seq<Row>, q: Path)
    requires IsPath(rows, p) && IsPath(rows, q)
    ensures IsPath(WithChildren(rows, p, ChildrenAt(rows, p) + extra), q)
    decreases |q|
  {
    var w := WithChildren(rows, p, ChildrenAt(rows, p) + extra);
    if q != [] {
      if p == [] {
        assert w[q[0]] == rows[q[0]];
      } else if q[0] == p[0] {
        PathKept(rows[p[0]].children, p[1..], extra, q[1..]);
      } else {
        assert w[q[0]] == rows[q[0]];
      }
    }
  }

  // ---------------------------------------------------------------------
  // The rows a load creates

  /** The value cell of a leaf row. */
  function LeafText(v: Json): string
    requires IsScalar(v)
  {
    match v
    case Null => "None"
    case Bool(b) => ReprBool(b)
    case Int(i) => IntToStr(i)
    case Str(s) => s
  }

  /** The value cell of a leaf row is `str(value)`. */
  lemma LeafTextIsStr(v: Json)
    requires IsScalar(v)
    ensures LeafText(v) == PyStr(v)
  {
  }

  /** The row for `v` under key `key` and everything beneath it, nested keys as given. */
  function Build(key: string, v: Json): (r: Row)
    ensures r.key == key && r.typeName == TypeName(TypeOf(v))
    decreases v, 1
  {
    if IsScalar(v) then Row(key, LeafText(v), TypeName(TypeOf(v)), [])
    else Row(key, "", TypeName(TypeOf(v)), ChildRows(v, Keys(Parts(v))))
  }

  /** The rows for the parts of a container, under the given keys. */
  function ChildRows(v: Json, keys: seq<string>): (rs: seq<Row>)
    requires |keys| == |Parts(v)|
    ensures |rs| == |keys|
    ensures forall i :: 0 <= i < |keys| ==> rs[i].key == keys[i]
    decreases v, 0
  {
    seq(|keys|, i requires 0 <= i < |keys| => Build(keys[i], Parts(v)[i].1))
  }

  /**
   * The keys a sequence of names gets when each is resolved against the
   * sibling keys already present, including the ones resolved before it.
   */
  function ResolvedKeys(taken: seq<string>, names: seq<string>): (r: seq<string>)
    ensures |r| == |names|
    decreases |names|
  {
    if names == [] then []
    else
      var before := ResolvedKeys(taken, names[..|names| - 1]);
      before + [FirstFree(KeyTarget(names[|names| - 1]), taken + before)]
  }

  /** The keys the parts of a container are added under, next to `existing` siblings. */
  function PieceKeys(v: Json, existing: seq<string>, keySafety: bool): (ks: seq<string>)
    ensures |ks| == |Parts(v)|
  {
    if !keySafety then Keys(Parts(v))
    else if v.Obj? then ResolvedKeys(existing, Keys(v.entries))
    else seq(|Parts(v)|, i requires 0 <= i < |Parts(v)| => IndexLabel(|existing| + i))
  }

  /**
   * The rows one load appends under its parent: a leaf row, or a wrapper row
   * for a container holding its parts, or (when merging) the parts themselves.
   */
  function NewRows(top: string, existing: seq<string>, v: Json, merge: bool, keySafety: bool): (r: seq<Row>)
    ensures IsScalar(v) || !merge ==> |r| == 1 && r[0].key == top && r[0].typeName == TypeName(TypeOf(v))
    ensures !IsScalar(v) && merge ==> |r| == |Parts(v)|
  {
    if IsScalar(v) then [Row(top, LeafText(v), TypeName(TypeOf(v)), [])]
    else if merge then ChildRows(v, PieceKeys(v, existing, keySafety))
    else [Row(top, "", TypeName(TypeOf(v)), ChildRows(v, PieceKeys(v, [], keySafety)))]
  }

  /** The type a parent item reports: the root type for a top-level item, its type cell otherwise. */
  function TypeFromItem(rows: seq<Row>, rootType: Option<PyType>, p: Path): string
    requires IsPath(rows, p) && (|p| <= 1 ==> rootType.Some?)
  {
    if |p| <= 1 then TypeName(rootType.value) else RowAt(rows, p).typeName
  }

  /** The key a new child of the item at `p` gets for the wanted name `target`. */
  function UniqueKey(rows: seq<Row>, rootType: Option<PyType>, p: Path, target: string, checkType: bool): (r: string)
    requires IsPath(rows, p) && (checkType && |p| <= 1 ==> rootType.Some?)
    ensures checkType && TypeFromItem(rows, rootType, p) in ListTypeNames ==> r == IndexLabel(|ChildrenAt(rows, p)|)
    ensures !(checkType && TypeFromItem(rows, rootType, p) in ListTypeNames) ==> r !in RowKeys(ChildrenAt(rows, p))
  {
    var keys := RowKeys(ChildrenAt(rows, p));
    if checkType && TypeFromItem(rows, rootType, p) in ListTypeNames then IndexLabel(|keys|)
    else FirstFree(KeyTarget(target), keys)
  }

  /** The rows a load of `v` under key `key` appends below the item at `p`. */
  function Added(rows: seq<Row>, rootType: Option<PyType>, p: Path, key: string, v: Json, merge: bool, keySafety: bool): seq<Row>
    requires IsPath(rows, p) && (keySafety && |p| <= 1 ==> rootType.Some?)
  {
    var top := if keySafety then UniqueKey(rows, rootType, p, key, true) else key;
    NewRows(top, RowKeys(ChildrenAt(rows, p)), v, merge, keySafety)
  }

  /**
   * The key items of rows `rs` appended below `base` from row `start` on:
   * each row followed by everything beneath it, in creation order.
   */
  function CreatedPaths(base: Path, start: nat, rs: seq<Row>): seq<Path>
    decreases rs
  {
    if rs == [] then []
    else
      var n := |rs| - 1;
      var q := base + [start + n];
      CreatedPaths(base, start, rs[..n]) + [q] + CreatedPaths(q, 0, rs[n].children)
  }

  /** The number of rows in a forest of rows. */
  function CountRows(rs: seq<Row>): nat
    decreases rs
  {
    if rs == [] then 0 else CountRows(rs[..|rs| - 1]) + 1 + CountRows(rs[|rs| - 1].children)
  }

  // ---------------------------------------------------------------------
  // Reading out

  /**
   * The value a leaf row's text converts back to: None for "NoneType",
   * a comparison with "True" for "bool", `int(text)` for "int" (which
   * raises on anything but a number) and the text itself for "str" or a
   * name that is not a builtin.
   */
  function LeafValue(typeName: string, text: string): (r: Option<Json>)
    ensures r.None? <==> typeName == "int" && ParseInt(text).None?
    ensures r.Some? ==> IsScalar(r.value)
    ensures r.Some? && typeName in {NoneTypeName, "bool", "int", "str"} ==> TypeName(TypeOf(r.value)) == typeName
  {
    if typeName == NoneTypeName then Some(Null)
    else if typeName == "bool" then Some(Bool(text == "True"))
    else if typeName == "int" then
      match ParseInt(text)
      case Some(i) => Some(Int(i))
      case None => None
    else Some(Str(text))
  }

  /** The value one row stands for; a nested container is rebuilt as an OrderedDict or a list. */
  function RowValue(r: Row): (res: Option<Json>)
    ensures res.Some? && r.typeName in DictTypeNames ==> res.value.Obj? && res.value.mapKind == OrderedDict
    ensures res.Some? && r.typeName in ListTypeNames ==> res.value.Arr? && res.value.seqKind == PyList
    decreases r
  {
    if r.typeName in DictTypeNames then Rebuild(Obj(OrderedDict, []), r.children, 0)
    else if r.typeName in ListTypeNames then Rebuild(Arr(PyList, []), r.children, 0)
    else LeafValue(r.typeName, r.value)
  }

  /** Filling `out` with the values of rows `rs[i..]`, in order; the first failure fails the read. */
  function Rebuild(out: Json, rs: seq<Row>, i: nat): (res: Option<Json>)
    requires i <= |rs|
    ensures res.Some? ==> TypeOf(res.value) == TypeOf(out)
    ensures res.Some? && out.Arr? ==> |res.value.items| == |out.items| + |rs| - i
    ensures i < |rs| && !out.Obj? && !(out.Arr? && out.seqKind == PyList) ==> res.None?
    decreases rs, |rs| - i
  {
    if i == |rs| then Some(out)
    else
      match RowValue(rs[i])
      case None => None
      case Some(x) =>
        match Put(out, rs[i].key, x)
        case None => None
        case Some(o) => Rebuild(o, rs, i + 1)
  }

  /** Filling the root object from the children of each top-level row in turn. */
  function ReadTop(out: Json, rows: seq<Row>, i: nat): (res: Option<Json>)
    requires i <= |rows|
    ensures res.Some? ==> TypeOf(res.value) == TypeOf(out)
    decreases |rows| - i
  {
    if i == |rows| then Some(out)
    else
      match Rebuild(out, rows[i].children, 0)
      case None => None
      case Some(o) => ReadTop(o, rows, i + 1)
  }

  /** What reading the whole model out yields; a missing root type fails. */
  function TreeData(rows: seq<Row>, rootType: Option<PyType>): (r: Option<Json>)
    ensures rootType.None? ==> r.None?
    ensures r.Some? ==> TypeOf(r.value) == rootType.value
    ensures rows == [] && rootType.Some? ==> r == Some(Default(rootType.value))
  {
    if rootType.None? then None else ReadTop(Default(rootType.value), rows, 0)
  }

  // ---------------------------------------------------------------------
  // The widget

  class DataTreeWidget {
    /** The top-level rows of the item model. */
    var rows: seq<Row>
    /** The type of the value last loaded at the top. */
    var rootType: Option<PyType>

    /** Rows only exist after a load at the top, which records the root type. */
    ghost predicate Valid()
      reads this
    {
      rows != [] ==> rootType.Some?
    }

    constructor()
      ensures Valid()
      ensures rows == [] && rootType == None
    {
      rows := [];
      rootType := None;
    }

    /**
     * `get_unique_key`: under a list parent (when the type is checked) the
     * next row label, otherwise the wanted name (or "KEY") with "_1"
     * appended until no sibling has it.
     */
    method GetUniqueKey(p: Path, target: string, checkType: bool) returns (r: string)
      requires IsPath(rows, p) && p != []
      requires checkType && |p| <= 1 ==> rootType.Some?
      ensures r == UniqueKey(rows, rootType, p, target, checkType)
      ensures !(checkType && TypeFromItem(rows, rootType, p) in ListTypeNames) ==>
                r !in RowKeys(ChildrenAt(rows, p))
    {
      if checkType {
        var parentType := TypeFromItem(rows, rootType, p);
        if parentType in ListTypeNames {
          return IndexLabel(|ChildrenAt(rows, p)|);
        }
      }
      var keyNames := RowKeys(ChildrenAt(rows, p));
      r := ResolveName(target, keyNames);
    }

    /**
     * `add_data_to_tree`: append the rows for `v` below `parent` (the
     * invisible root when absent, which also records the root type) and
     * return the key item of every row created, in creation order.
     */
    method AddDataToTree(key: string, v: Json, parent: Option<Path>, merge: bool, keySafety: bool)
      returns (created: seq<Path>)
      requires Valid()
      requires parent.Some? ==> IsPath(rows, parent.value) && rootType.Some?
      requires keySafety ==> parent.Some? && parent.value != []
      modifies this
      ensures Valid()
      ensures rootType == (if parent.None? then Some(TypeOf(v)) else old(rootType))
      ensures parent.None? ==>
                rows == old(rows) + Added(old(rows), old(rootType), [], key, v, merge, keySafety) &&
                created == CreatedPaths([], |old(rows)|, Added(old(rows), old(rootType), [], key, v, merge, keySafety))
      ensures parent.Some? ==>
                rows == WithChildren(old(rows), parent.value, ChildrenAt(old(rows), parent.value) +
                                     Added(old(rows), old(rootType), parent.value, key, v, merge, keySafety))
      ensures parent.Some? ==>
                created == CreatedPaths(parent.value, |ChildrenAt(old(rows), parent.value)|,
                                        Added(old(rows), old(rootType), parent.value, key, v, merge, keySafety))
      decreases v, 3
    {
      var p := if parent.None? then [] else parent.value;
      if parent.None? {
        rootType := Some(TypeOf(v));
      }
      assert keySafety ==> UniqueKey(rows, rootType, p, key, true) == UniqueKey(rows, old(rootType), p, key, true);
      if IsScalar(v) {
        created := AppendLeaf(p, key, v, keySafety);
      } else if merge {
        created := AddParts(v, p, keySafety);
      } else {
        created := AppendWrapper(p, key, v, keySafety);
      }
    }

    /** The leaf branch: one row holding the printed value and the type name. */
    method AppendLeaf(p: Path, key: string, v: Json, keySafety: bool) returns (created: seq<Path>)
      requires Valid() && IsScalar(v) && rootType.Some?
      requires IsPath(rows, p) && (keySafety ==> p != [])
      modifies this
      ensures Valid() && rootType == old(rootType)
      ensures var added := Added(old(rows), rootType, p, key, v, false, keySafety);
              rows == WithChildren(old(rows), p, ChildrenAt(old(rows), p) + added) &&
              created == CreatedPaths(p, |ChildrenAt(old(rows), p)|, added)
    {
      var kids0 := ChildrenAt(rows, p);
      var dataKey := key;
      if keySafety {
        dataKey := GetUniqueKey(p, key, true);
      }
      var row := Row(dataKey, LeafText(v), TypeName(TypeOf(v)), []);
      assert [row][..0] == [];
      rows := WithChildren(rows, p, kids0 + [row]);
      created := [p + [|kids0|]];
    }

    /** The container branch without merging: a wrapper row, then the parts below it. */
    method AppendWrapper(p: Path, key: string, v: Json, keySafety: bool) returns (created: seq<Path>)
      requires Valid() && !IsScalar(v) && rootType.Some?
      requires IsPath(rows, p) && (keySafety ==> p != [])
      modifies this
      ensures Valid() && rootType == old(rootType)
      ensures var added := Added(old(rows), rootType, p, key, v, false, keySafety);
              rows == WithChildren(old(rows), p, ChildrenAt(old(rows), p) + added) &&
              created == CreatedPaths(p, |ChildrenAt(old(rows), p)|, added)
      decreases v, 2
    {
      ghost var rows0 := rows;
      ghost var kids0 := ChildrenAt(rows, p);
      var target, wrapper := AppendWrapperRow(p, key, v, keySafety);
      ghost var rows1 := rows;
      var more := AddParts(v, target, keySafety);
      ghost var kids := ChildRows(v, PieceKeys(v, [], keySafety));
      assert [] + kids == kids;
      WrapperAssembled(rows0, p, kids0, wrapper, rows1, kids, rows);
      assert Added(rows0, rootType, p, key, v, false, keySafety) == [wrapper.(children := kids)];
      CreatedSingle(p, |kids0|, wrapper.(children := kids));
      created := [target] + more;
    }

    /** The wrapper row of a container, still without children, appended below `p`. */
    method AppendWrapperRow(p: Path, key: string, v: Json, keySafety: bool) returns (target: Path, wrapper: Row)
      requires Valid() && rootType.Some?
      requires IsPath(rows, p) && (keySafety ==> p != [])
      modifies this
      ensures Valid() && rootType == old(rootType)
      ensures wrapper == Row(if keySafety then UniqueKey(old(rows), rootType, p, key, true) else key,
                             "", TypeName(TypeOf(v)), [])
      ensures rows == WithChildren(old(rows), p, ChildrenAt(old(rows), p) + [wrapper])
      ensures target == p + [|ChildrenAt(old(rows), p)|]
      ensures IsPath(rows, target) && ChildrenAt(rows, target) == []
    {
      ghost var rows0 := rows;
      var kids0 := ChildrenAt(rows, p);
      var dataKey := key;
      if keySafety {
        dataKey := GetUniqueKey(p, key, true);
      }
      wrapper := Row(dataKey, "", TypeName(TypeOf(v)), []);
      rows := WithChildren(rows, p, kids0 + [wrapper]);
      WithChildrenAt(rows0, p, kids0 + [wrapper]);
      target := p + [|kids0|];
      ChildPath(rows, p, |kids0|);
    }

    /** A nested load: no merging and no key safety, so exactly the built rows are appended. */
    method AddNested(key: string, v: Json, target: Path) returns (created: seq<Path>)
      requires Valid() && rootType.Some? && IsPath(rows, target)
      modifies this
      ensures Valid() && rootType == old(rootType)
      ensures rows == WithChildren(old(rows), target, ChildrenAt(old(rows), target) + [Build(key, v)])
      ensures created == CreatedPaths(target, |ChildrenAt(old(rows), target)|, [Build(key, v)])
      decreases v, 4
    {
      created := AddDataToTree(key, v, Some(target), false, false);
      NewRowsPlain(key, v, RowKeys(ChildrenAt(old(rows), target)));
    }

    /** The key part `i` of `v` is stored under, with the sibling rows so far in place. */
    method PartKey(v: Json, target: Path, keySafety: bool, i: nat, ghost kids0: seq<Row>) returns (k: string)
      requires !IsScalar(v) && i < |Parts(v)| && IsPath(rows, target)
      requires keySafety ==> target != []
      requires ChildrenAt(rows, target) ==
               kids0 + ChildRows(v, PieceKeys(v, RowKeys(kids0), keySafety))[..i]
      ensures k == PieceKeys(v, RowKeys(kids0), keySafety)[i]
    {
      ghost var keys := PieceKeys(v, RowKeys(kids0), keySafety);
      k := Parts(v)[i].0;
      if keySafety {
        if v.Obj? {
          k := GetUniqueKey(target, k, false);
          KeysSoFar(v, kids0, keys, i);
          ResolvedKeysAt(RowKeys(kids0), Keys(v.entries), i);
        } else {
          k := IndexLabel(|ChildrenAt(rows, target)|);
        }
      }
    }

    /** The loops over a container's parts, appending each part's rows below `target`. */
    method AddParts(v: Json, target: Path, keySafety: bool) returns (created: seq<Path>)
      requires Valid() && !IsScalar(v) && rootType.Some?
      requires IsPath(rows, target) && (keySafety ==> target != [])
      modifies this
      ensures Valid() && rootType == old(rootType)
      ensures var kids0 := ChildrenAt(old(rows), target);
              var kids := ChildRows(v, PieceKeys(v, RowKeys(kids0), keySafety));
              rows == WithChildren(old(rows), target, kids0 + kids) &&
              created == CreatedPaths(target, |kids0|, kids)
      decreases v, 1
    {
      ghost var rows0 := rows;
      ghost var kids0 := ChildrenAt(rows, target);
      ghost var keys := PieceKeys(v, RowKeys(kids0), keySafety);
      ghost var kids := ChildRows(v, keys);
      var n := |Parts(v)|;
      WithChildrenSame(rows0, target);
      assert kids0 + kids[..0] == kids0;
      created := [];
      var i := 0;
      while i < n
        invariant 0 <= i <= n
        invariant Valid() && rootType == old(rootType)
        invariant rows == WithChildren(rows0, target, kids0 + kids[..i])
        invariant created == CreatedPaths(target, |kids0|, kids[..i])
      {
        assert IsPath(rows, target) && ChildrenAt(rows, target) == kids0 + kids[..i] by {
          AppendStep(rows0, target, kids0, kids, i);
        }
        ghost var before := rows;
        var more := AddPart(v, target, keySafety, i, kids0);
        assert rows == WithChildren(rows0, target, kids0 + kids[..i + 1]) by {
          AppendStep(rows0, target, kids0, kids, i);
          RowsStep(rows0, target, kids0, kids, i, before, rows);
        }
        assert created + more == CreatedPaths(target, |kids0|, kids[..i + 1]) by {
          PathsStep(target, |kids0|, kids, i, before, created, more);
        }
        created := created + more;
        i := i + 1;
      }
      assert kids[..n] == kids;
    }

    /** Part `i` of a container, loaded below `target` under its resolved key. */
    method AddPart(v: Json, target: Path, keySafety: bool, i: nat, ghost kids0: seq<Row>) returns (more: seq<Path>)
      requires Valid() && !IsScalar(v) && rootType.Some?
      requires i < |Parts(v)| && IsPath(rows, target) && (keySafety ==> target != [])
      requires ChildrenAt(rows, target) ==
               kids0 + ChildRows(v, PieceKeys(v, RowKeys(kids0), keySafety))[..i]
      modifies this
      ensures Valid() && rootType == old(rootType)
      ensures var kid := ChildRows(v, PieceKeys(v, RowKeys(kids0), keySafety))[i];
              rows == WithChildren(old(rows), target, ChildrenAt(old(rows), target) + [kid]) &&
              more == CreatedPaths(target, |ChildrenAt(old(rows), target)|, [kid])
      decreases v, 0
    {
      var k := PartKey(v, target, keySafety, i, kids0);
      assert ChildRows(v, PieceKeys(v, RowKeys(kids0), keySafety))[i] == Build(k, Parts(v)[i].1);
      more := AddNested(k, Parts(v)[i].1, target);
    }

    /** `_recursive_model_to_data`: fill `out` from the rows below the item at `parent`. */
    method RecursiveModelToData(out: Json, parent: Path) returns (r: Option<Json>)
      requires IsPath(rows, parent)
      ensures r == Rebuild(out, ChildrenAt(rows, parent), 0)
      decreases ChildrenAt(rows, parent), 2
    {
      var kids := ChildrenAt(rows, parent);
      var acc := out;
      var i := 0;
      while i < |kids|
        invariant 0 <= i <= |kids|
        invariant Rebuild(out, kids, 0) == Rebuild(acc, kids, i)
      {
        var next := ModelStep(parent, i, acc);
        if next.None? {
          return None;
        }
        acc := next.value;
        i := i + 1;
      }
      r := Some(acc);
    }

    /** One turn of the loop: the value of child `i` stored into `acc`, or the failure that ends the read. */
    method ModelStep(parent: Path, i: nat, acc: Json) returns (next: Option<Json>)
      requires IsPath(rows, parent) && i < |ChildrenAt(rows, parent)|
      ensures next.None? ==> Rebuild(acc, ChildrenAt(rows, parent), i) == None
      ensures next.Some? ==> Rebuild(acc, ChildrenAt(rows, parent), i) == Rebuild(next.value, ChildrenAt(rows, parent), i + 1)
      decreases ChildrenAt(rows, parent), 1
    {
      var value := ChildModelValue(parent, i);
      if value.None? {
        return None;
      }
      next := Put(acc, ChildrenAt(rows, parent)[i].key, value.value);
    }

    /** The value of child `i` of the row at `parent`: a nested container is read recursively. */
    method ChildModelValue(parent: Path, i: nat) returns (value: Option<Json>)
      requires IsPath(rows, parent) && i < |ChildrenAt(rows, parent)|
      ensures value == RowValue(ChildrenAt(rows, parent)[i])
      decreases ChildrenAt(rows, parent), 0
    {
      var row := ChildrenAt(rows, parent)[i];
      ChildPath(rows, parent, i);
      if row.typeName in DictTypeNames {
        value := RecursiveModelToData(Obj(OrderedDict, []), parent + [i]);
      } else if row.typeName in ListTypeNames {
        value := RecursiveModelToData(Arr(PyList, []), parent + [i]);
      } else {
        value := LeafValue(row.typeName, row.value);
      }
    }

    /** `get_tree_data`: a fresh object of the root type, filled from every top-level row. */
    method GetTreeData() returns (r: Option<Json>)
      ensures r == TreeData(rows, rootType)
    {
      if rootType.None? {
        return None;
      }
      var acc := Default(rootType.value);
      var i := 0;
      while i < |rows|
        invariant 0 <= i <= |rows|
        invariant TreeData(rows, rootType) == ReadTop(acc, rows, i)
      {
        ChildPath(rows, [], i);
        assert [] + [i] == [i];
        var filled := RecursiveModelToData(acc, [i]);
        if filled.None? {
          return None;
        }
        acc := filled.value;
        i := i + 1;
      }
      r := Some(acc);
    }

    /** `set_tree_data`: clear the model and load `v` at the top. */
    method SetTreeData(v: Json)
      modifies this
      ensures Valid()
      ensures rows == [Build("", v)] && rootType == Some(TypeOf(v))
      ensures TreeData(rows, rootType) == RoundTrip(v)
    {
      rows := [];
      var created := AddDataToTree("", v, None, false, false);
      NewRowsPlain("", v, []);
      WithChildrenAt([], [], [Build("", v)]);
      SetGetRoundTrip(v);
    }

    /** The body of the paste loop for one selected row. */
    method PasteAt(t: Path, data: Json, merge: bool)
      requires Valid() && rootType.Some? && t != [] && IsPath(rows, t)
      modifies this
      ensures Valid() && rootType == old(rootType)
      ensures rows == PasteOne(old(rows), rootType.value, t, data, merge)
    {
      var targetType := RowAt(rows, t).typeName;
      if targetType in ChildTypeNames {
        var d := data;
        if merge && targetType in ListTypeNames && data.Obj? {
          d := Arr(PyList, Values(data.entries));
        }
        var _ := AddDataToTree("", d, Some(t), merge, true);
      }
    }

    /**
     * `add_data_to_selected`: paste `data` below every selected row whose
     * type holds children, with key safety on; merging a mapping into a list
     * pastes its values.
     */
    method AddDataToSelected(targets: seq<Path>, data: Json, merge: bool)
      requires Valid()
      requires forall j :: 0 <= j < |targets| ==> targets[j] != [] && IsPath(rows, targets[j])
      modifies this
      ensures Valid() && rootType == old(rootType)
      ensures targets != [] ==> rootType.Some?
      ensures rows == PasteAll(old(rows), rootType, targets, data, merge)
    {
      if targets != [] {
        assert IsPath(rows, targets[0]) && rows != [];
      }
      var i := 0;
      while i < |targets|
        invariant 0 <= i <= |targets|
        invariant Valid() && rootType == old(rootType)
        invariant forall j :: i <= j < |targets| ==> targets[j] != [] && IsPath(rows, targets[j])
        invariant i < |targets| ==> rootType.Some?
        invariant PasteAll(old(rows), rootType, targets, data, merge) ==
                  PasteAll(rows, rootType, targets[i..], data, merge)
      {
        var t := targets[i];
        ghost var before := rows;
        PasteAt(t, data, merge);
        assert targets[i..][1..] == targets[i + 1..];
        i := i + 1;
        if i < |targets| {
          assert IsPath(rows, targets[i]) && targets[i] != [];
        }
      }
    }
  }

  // ---------------------------------------------------------------------
  // Pasting into selected rows

  /** One paste: skip a row that cannot hold children, otherwise load below it with key safety. */
  /**
   * A paste only appends rows: a target that cannot hold children is left
   * as it is, and below any other target the old rows stay first.
   * Every row that existed is still addressable afterwards.
   */
  function PasteOne(rows: seq<Row>, rootType: PyType, t: Path, data: Json, merge: bool): (r: seq<Row>)
    requires IsPath(rows, t) && t != []
    ensures RowAt(rows, t).typeName !in ChildTypeNames ==> r == rows
    ensures IsPath(r, t) && |ChildrenAt(rows, t)| <= |ChildrenAt(r, t)|
    ensures ChildrenAt(r, t)[..|ChildrenAt(rows, t)|] == ChildrenAt(rows, t)
    ensures forall q :: IsPath(rows, q) ==> IsPath(r, q)
  {
    var targetType := RowAt(rows, t).typeName;
    if targetType !in ChildTypeNames then rows
    else
      var d := if merge && targetType in ListTypeNames && data.Obj? then Arr(PyList, Values(data.entries)) else data;
      var kids := ChildrenAt(rows, t) + Added(rows, Some(rootType), t, "", d, merge, true);
      WithChildrenAt(rows, t, kids);
      PathsKept(rows, t, Added(rows, Some(rootType), t, "", d, merge, true));
      WithChildren(rows, t, kids)
  }

  /** Appending rows below one item keeps every existing path. */
  lemma PathsKept(rows: seq<Row>, p: Path, extra: seq<Row>)
    requires IsPath(rows, p)
    ensures forall q :: IsPath(rows, q) ==> IsPath(WithChildren(rows, p, ChildrenAt(rows, p) + extra), q)
  {
    forall q | IsPath(rows, q) ensures IsPath(WithChildren(rows, p, ChildrenAt(rows, p) + extra), q) {
      PathKept(rows, p, extra, q);
    }
  }

  /** The pastes into all selected rows, one after another; every existing row stays addressable. */
  function PasteAll(rows: seq<Row>, rootType: Option<PyType>, ts: seq<Path>, data: Json, merge: bool): (r: seq<Row>)
    requires ts != [] ==> rootType.Some?
    requires forall j :: 0 <= j < |ts| ==> ts[j] != [] && IsPath(rows, ts[j])
    ensures forall q :: IsPath(rows, q) ==> IsPath(r, q)
    decreases |ts|
  {
    if ts == [] then rows
    else
      PasteAll(PasteOne(rows, rootType.value, ts[0], data, merge), rootType, ts[1..], data, merge)
  }

  // ---------------------------------------------------------------------
  // Lemmas

  lemma UpdateLast<T>(s: seq<T>, x: T, y: T)
    ensures (s + [x])[|s| := y] == s + [y]
  {
  }

  /** A wrapper row appended below `p` and then given its children is the filled row appended there. */
  lemma WrapperAssembled(rows0: seq<Row>, p: Path, kids0: seq<Row>, wrapper: Row, rows1: seq<Row>, kids: seq<Row>, rows2: seq<Row>)
    requires IsPath(rows0, p) && kids0 == ChildrenAt(rows0, p)
    requires rows1 == WithChildren(rows0, p, kids0 + [wrapper])
    requires IsPath(rows1, p + [|kids0|])
    requires rows2 == WithChildren(rows1, p + [|kids0|], kids)
    ensures rows2 == WithChildren(rows0, p, kids0 + [wrapper.(children := kids)])
  {
    WithChildrenAt(rows0, p, kids0 + [wrapper]);
    WithChildrenBelow(rows1, p, |kids0|, kids);
    UpdateLast(kids0, wrapper, wrapper.(children := kids));
    WithChildrenTwice(rows0, p, kids0 + [wrapper], kids0 + [wrapper.(children := kids)]);
  }

  /** One more part appended below `target`, as the loop over a container's parts does it. */
  lemma AppendStep(rows0: seq<Row>, target: Path, kids0: seq<Row>, kids: seq<Row>, i: nat)
    requires IsPath(rows0, target) && i < |kids|
    ensures IsPath(WithChildren(rows0, target, kids0 + kids[..i]), target)
    ensures ChildrenAt(WithChildren(rows0, target, kids0 + kids[..i]), target) == kids0 + kids[..i]
    ensures WithChildren(WithChildren(rows0, target, kids0 + kids[..i]), target, kids0 + kids[..i] + [kids[i]]) ==
            WithChildren(rows0, target, kids0 + kids[..i + 1])
  {
    WithChildrenAt(rows0, target, kids0 + kids[..i]);
    assert kids0 + kids[..i] + [kids[i]] == kids0 + kids[..i + 1];
    WithChildrenTwice(rows0, target, kids0 + kids[..i], kids0 + kids[..i + 1]);
  }

  /** The rows invariant of the parts loop after one more part is appended. */
  lemma RowsStep(rows0: seq<Row>, target: Path, kids0: seq<Row>, kids: seq<Row>, i: nat,
                 before: seq<Row>, after: seq<Row>)
    requires i < |kids| && IsPath(rows0, target) && IsPath(before, target)
    requires ChildrenAt(before, target) == kids0 + kids[..i]
    requires WithChildren(before, target, kids0 + kids[..i] + [kids[i]]) == WithChildren(rows0, target, kids0 + kids[..i + 1])
    requires after == WithChildren(before, target, ChildrenAt(before, target) + [kids[i]])
    ensures after == WithChildren(rows0, target, kids0 + kids[..i + 1])
  {
  }

  /** The created-paths invariant of the parts loop after one more part is appended. */
  lemma PathsStep(target: Path, start: nat, kids: seq<Row>, i: nat, before: seq<Row>, done: seq<Path>, more: seq<Path>)
    requires i < |kids| && IsPath(before, target) && |ChildrenAt(before, target)| == start + i
    requires done == CreatedPaths(target, start, kids[..i])
    requires more == CreatedPaths(target, |ChildrenAt(before, target)|, [kids[i]])
    ensures done + more == CreatedPaths(target, start, kids[..i + 1])
  {
    CreatedSnoc(target, start, kids, i);
  }

  /** The sibling keys while the loop is at part `i`: the old ones, then the keys added so far. */
  lemma KeysSoFar(v: Json, kids0: seq<Row>, keys: seq<string>, i: nat)
    requires |keys| == |Parts(v)| && i <= |keys|
    ensures RowKeys(kids0 + ChildRows(v, keys)[..i]) == RowKeys(kids0) + keys[..i]
  {
    KeysOfPrefix(kids0, ChildRows(v, keys), keys, i);
  }

  lemma KeysOfPrefix(kids0: seq<Row>, rs: seq<Row>, keys: seq<string>, i: nat)
    requires |rs| == |keys| && i <= |rs|
    requires forall m :: 0 <= m < |rs| ==> rs[m].key == keys[m]
    ensures RowKeys(kids0 + rs[..i]) == RowKeys(kids0) + keys[..i]
  {
    var all := kids0 + rs[..i];
    forall m | 0 <= m < |all| ensures RowKeys(all)[m] == (RowKeys(kids0) + keys[..i])[m] {
      if m >= |kids0| {
        assert all[m] == rs[m - |kids0|];
      }
    }
  }

  /** A single appended row comes first, then everything beneath it. */
  lemma CreatedSingle(base: Path, start: nat, r: Row)
    ensures CreatedPaths(base, start, [r]) == [base + [start]] + CreatedPaths(base + [start], 0, r.children)
  {
    assert [r][..0] == [];
  }

  /** Creation order of rows appended one at a time. */
  lemma CreatedSnoc(base: Path, start: nat, rs: seq<Row>, i: nat)
    requires i < |rs|
    ensures CreatedPaths(base, start, rs[..i + 1]) ==
            CreatedPaths(base, start, rs[..i]) + CreatedPaths(base, start + i, [rs[i]])
  {
    assert rs[..i + 1][..i] == rs[..i];
    assert [rs[i]][..0] == [];
  }

  /** Without merging or key safety a load appends exactly the built row. */
  lemma NewRowsPlain(key: string, v: Json, existing: seq<string>)
    ensures NewRows(key, existing, v, false, false) == [Build(key, v)]
  {
  }

  /** Resolving names one by one: each key is resolved against the taken keys and those before it. */
  lemma {:induction false} ResolvedKeysAt(taken: seq<string>, names: seq<string>, i: nat)
    requires i < |names|
    ensures ResolvedKeys(taken, names)[i] ==
            FirstFree(KeyTarget(names[i]), taken + ResolvedKeys(taken, names)[..i])
    decreases |names|
  {
    var n := |names| - 1;
    var before := ResolvedKeys(taken, names[..n]);
    if i < n {
      ResolvedKeysAt(taken, names[..n], i);
      assert ResolvedKeys(taken, names)[..i] == before[..i];
    } else {
      assert ResolvedKeys(taken, names)[..i] == before;
    }
  }

  /** Every resolved key is new: not among the taken keys and not among the earlier resolved ones. */
  lemma {:induction false} ResolvedKeysFresh(taken: seq<string>, names: seq<string>)
    ensures forall i :: 0 <= i < |names| ==>
              ResolvedKeys(taken, names)[i] !in taken + ResolvedKeys(taken, names)[..i]
    decreases |names|
  {
    if names != [] {
      var n := |names| - 1;
      var r := ResolvedKeys(taken, names);
      ResolvedKeysFresh(taken, names[..n]);
      forall i | 0 <= i < |names|
        ensures r[i] !in taken + r[..i]
      {
        ResolvedKeysAt(taken, names, i);
        FirstFreeIsFree(KeyTarget(names[i]), taken + r[..i]);
      }
    }
  }

  lemma FirstFreeIsFree(name: string, taken: seq<string>)
    ensures FirstFree(name, taken) !in taken
  {
  }

  /** Hence resolved keys never repeat. */
  lemma ResolvedKeysDistinct(taken: seq<string>, names: seq<string>)
    ensures Distinct(ResolvedKeys(taken, names))
    ensures forall i :: 0 <= i < |names| ==> ResolvedKeys(taken, names)[i] !in taken
  {
    var r := ResolvedKeys(taken, names);
    ResolvedKeysFresh(taken, names);
    forall i, j | 0 <= i < j < |r|
      ensures r[i] != r[j]
    {
      assert r[i] in r[..j];
    }
  }

  /** Reading back the rows built for `x` gives the value rebuilt as in Norm. */
  lemma {:induction false} RowValueBuild(key: string, x: Json)
    ensures RowValue(Build(key, x)) == Some(Norm(x))
    decreases x
  {
    match x
    case Obj(kind, es) =>
      forall j | 0 <= j < |es| ensures RowValue(Build(es[j].0, es[j].1)) == Some(Norm(es[j].1)) {
        RowValueBuild(es[j].0, es[j].1);
      }
      ObjRowValue(key, kind, es);
    case Arr(kind, xs) =>
      forall j | 0 <= j < |xs| ensures RowValue(Build(IndexLabel(j), xs[j])) == Some(Norm(xs[j])) {
        RowValueBuild(IndexLabel(j), xs[j]);
      }
      ArrRowValue(key, kind, xs);
    case _ =>
      LeafRowValue(key, x);
  }

  /** A leaf row's text converts back to the leaf. */
  lemma LeafRowValue(key: string, x: Json)
    requires IsScalar(x)
    ensures RowValue(Build(key, x)) == Some(x)
  {
    var r := Build(key, x);
    TypeNameClasses(TypeOf(x));
    assert r.typeName !in DictTypeNames && r.typeName !in ListTypeNames;
    assert RowValue(r) == LeafValue(r.typeName, LeafText(x));
    match x
    case Null =>
    case Bool(b) =>
    case Int(i) =>
      IntTextRoundTrip(i);
    case Str(s) =>
  }

  lemma ObjRowValue(key: string, kind: MapKind, es: seq<Entry>)
    requires forall j :: 0 <= j < |es| ==> RowValue(Build(es[j].0, es[j].1)) == Some(Norm(es[j].1))
    ensures RowValue(Build(key, Obj(kind, es))) == Some(Norm(Obj(kind, es)))
  {
    var x := Obj(kind, es);
    var r := Build(key, x);
    TypeNameClasses(TypeOf(x));
    assert r.typeName in DictTypeNames;
    assert RowValue(r) == Rebuild(Obj(OrderedDict, []), ChildRows(x, Keys(es)), 0);
    RebuildEntries(OrderedDict, kind, [], es, 0);
    assert NormEntries(es)[0..] == NormEntries(es);
  }

  lemma ArrRowValue(key: string, kind: SeqKind, xs: seq<Json>)
    requires forall j :: 0 <= j < |xs| ==> RowValue(Build(IndexLabel(j), xs[j])) == Some(Norm(xs[j]))
    ensures RowValue(Build(key, Arr(kind, xs))) == Some(Norm(Arr(kind, xs)))
  {
    var x := Arr(kind, xs);
    var r := Build(key, x);
    TypeNameClasses(TypeOf(x));
    assert r.typeName !in DictTypeNames && r.typeName in ListTypeNames;
    assert RowValue(r) == Rebuild(Arr(PyList, []), ChildRows(x, Keys(Parts(x))), 0);
    RebuildItems(kind, [], xs, 0);
    assert [] + NormItems(xs)[0..] == NormItems(xs);
  }

  /** Filling a mapping from the rows of entries `es[i..]` assigns their rebuilt values in order. */
  lemma {:induction false} RebuildEntries(kind: MapKind, src: MapKind, acc: seq<Entry>, es: seq<Entry>, i: nat)
    requires i <= |es|
    requires forall j :: 0 <= j < |es| ==> RowValue(Build(es[j].0, es[j].1)) == Some(Norm(es[j].1))
    ensures Rebuild(Obj(kind, acc), ChildRows(Obj(src, es), Keys(es)), i) ==
            Some(Obj(kind, AssignAll(acc, NormEntries(es)[i..])))
    decreases |es| - i
  {
    var kids := ChildRows(Obj(src, es), Keys(es));
    if i < |es| {
      assert kids[i] == Build(es[i].0, es[i].1);
      var acc' := Assign(acc, es[i].0, Norm(es[i].1));
      RebuildEntries(kind, src, acc', es, i + 1);
      assert NormEntries(es)[i..][0] == (es[i].0, Norm(es[i].1));
      assert NormEntries(es)[i..][1..] == NormEntries(es)[i + 1..];
    }
  }

  /** Filling a list from the rows of items `xs[i..]` appends their rebuilt values in order. */
  lemma {:induction false} RebuildItems(kind: SeqKind, acc: seq<Json>, xs: seq<Json>, i: nat)
    requires i <= |xs|
    requires forall j :: 0 <= j < |xs| ==> RowValue(Build(IndexLabel(j), xs[j])) == Some(Norm(xs[j]))
    ensures Rebuild(Arr(PyList, acc), ChildRows(Arr(kind, xs), Keys(Parts(Arr(kind, xs)))), i) ==
            Some(Arr(PyList, acc + NormItems(xs)[i..]))
    decreases |xs| - i
  {
    var v := Arr(kind, xs);
    var kids := ChildRows(v, Keys(Parts(v)));
    if i < |xs| {
      assert kids[i] == Build(IndexLabel(i), xs[i]);
      RebuildItems(kind, acc + [Norm(xs[i])], xs, i + 1);
      NormItemsStep(acc, xs, i);
    } else {
      assert acc + NormItems(xs)[i..] == acc;
    }
  }

  /** A model with one top-level row reads out as the root object filled from that row's children. */
  lemma ReadSingle(d: Json, top: Row)
    ensures ReadTop(d, [top], 0) == Rebuild(d, top.children, 0)
  {
  }

  /**
   * Loading `v` at the top of an empty model and reading it out again gives
   * RoundTrip(v): the same result the node-based tree gives.
   */
  lemma SetGetRoundTrip(v: Json)
    ensures TreeData([Build("", v)], Some(TypeOf(v))) == RoundTrip(v)
  {
    ReadSingle(Default(TypeOf(v)), Build("", v));
    TopRoundTrip(v);
  }

  /** The rows below a freshly loaded top read back, into the type's empty value, as RoundTrip. */
  lemma TopRoundTrip(v: Json)
    ensures Rebuild(Default(TypeOf(v)), Build("", v).children, 0) == RoundTrip(v)
  {
    match v
    case Obj(kind, es) =>
      assert Default(TypeOf(v)) == Obj(kind, []);
      TopObj(kind, es);
    case Arr(PyList, xs) =>
      assert Default(TypeOf(v)) == Arr(PyList, []);
      TopList(xs);
    case Arr(PyTuple, xs) =>
      assert Default(TypeOf(v)) == Arr(PyTuple, []);
      TopTuple(xs);
    case _ =>
      assert Build("", v).children == [];
  }

  lemma TopObj(kind: MapKind, es: seq<Entry>)
    ensures Rebuild(Obj(kind, []), Build("", Obj(kind, es)).children, 0) == RoundTrip(Obj(kind, es))
  {
    forall j | 0 <= j < |es| ensures RowValue(Build(es[j].0, es[j].1)) == Some(Norm(es[j].1)) {
      RowValueBuild(es[j].0, es[j].1);
    }
    RebuildEntries(kind, kind, [], es, 0);
    assert NormEntries(es)[0..] == NormEntries(es);
  }

  lemma TopList(xs: seq<Json>)
    ensures Rebuild(Arr(PyList, []), Build("", Arr(PyList, xs)).children, 0) == RoundTrip(Arr(PyList, xs))
  {
    forall j | 0 <= j < |xs| ensures RowValue(Build(IndexLabel(j), xs[j])) == Some(Norm(xs[j])) {
      RowValueBuild(IndexLabel(j), xs[j]);
    }
    RebuildItems(PyList, [], xs, 0);
    assert [] + NormItems(xs)[0..] == NormItems(xs);
  }

  /** A tuple root holds its items only when it has none: appending to a tuple fails. */
  lemma TopTuple(xs: seq<Json>)
    ensures Rebuild(Arr(PyTuple, []), Build("", Arr(PyTuple, xs)).children, 0) == RoundTrip(Arr(PyTuple, xs))
  {
    var v := Arr(PyTuple, xs);
    var kids := Build("", v).children;
    if xs != [] {
      assert kids == ChildRows(v, Keys(Parts(v)));
      assert Parts(v)[0] == (IndexLabel(0), xs[0]);
      assert Keys(Parts(v))[0] == IndexLabel(0);
      RowValueBuild(IndexLabel(0), xs[0]);
      assert kids[0] == Build(IndexLabel(0), xs[0]);
      assert Put(Arr(PyTuple, []), kids[0].key, Norm(xs[0])) == None;
    }
  }
}
