# json-tree: a verified model of the editable JSON document tree

The editor loads a JSON value (RFC 8259 section 3) into a tree of
key/value/type rows, lets the user edit that tree, and rebuilds a JSON value
from it. It does this in two parallel implementations, and this project
models both:

- `DataModelItem` / `DataModel` (`json_tree/data_tree_model.py`) is a tree of
  heap nodes. Each node keeps its real typed value, its type name, a parent
  link, a cached row and a list of children. It is modelled by the classes
  `DataTreeModel.Node` and `DataTreeModel.DataModel`. Loading, reading out,
  key resolution, typed edits, remove and move are methods that update node
  fields in place.
- `DataTreeWidget` (`json_tree/data_tree.py`) is a three-column item model of
  text cells: the key, `str(value)` and the type's name. It is modelled as a
  class `DataTree.DataTreeWidget` whose `rows` field is a forest of `Row`
  values, with rows addressed by paths of row numbers. Loading, the
  unique-key resolver, reading back through the type column, and paste into
  the selected rows are methods over that state.

Three small helpers are modelled beside the trees:

- `recursive_modify` (`RecursiveModify.Modify`) is a structural map applying
  a string function to keys and/or string leaves.
- `BatchModifyWidget.modify_string` (`BatchModify`) folds the search/replace
  lines over a string, then adds a prefix and a suffix.
- The most-recently-used path list (`RecentPaths`) covers both the copy kept
  in the settings file and the copy shown in the combo box.

Python behaviour that the code relies on is spelled out in Dafny:

- `JsonValue` holds the value datatype and dictionary assignment semantics.
- `PyLists` holds `list.insert` clamping, `list.index`, `list.remove` and
  slicing.
- `PyText` holds `str(int)`, `int(text)`, `lower`, `title`, `str.replace`
  with its empty-pattern rule, `str.split`, and `str`/`repr` of values.
- `UniqueKeys` holds the `"_1"` key resolver that both trees share.

The central property is the round trip asserted at
`json_tree/data_tree_model.py:426-431` and `json_tree/data_tree.py:387-393`.
`DataModel.SetData` and `DataTreeWidget.SetTreeData` both prove that reading
out after a load gives `RoundTrip(v)`. `JsonValue.RoundTripPlain` proves
`RoundTrip(v) == Some(v)` for every mapping, list or null that
`json.load(..., object_pairs_hook=OrderedDict)` can produce.

The model follows the code where it departs from the editor's documented
design:

- A scalar root comes back as the empty value of its type (`0`, `""`,
  `False`). Reading out fills a fresh root-type object from the top row's
  children, and a leaf row has none.
- A non-empty tuple root cannot be read out, because items are appended to a
  fresh tuple.
- `remove_child` does not renumber the cached rows.
- `moveRow` ignores its destination parent.
- `setData` reports `False` after a value edit, because `set_value` returns
  `None`.
- A key typed into column 0 is stored verbatim, without uniqueness
  resolution.
- Filtering is not done by the repository at all. It is delegated to Qt's
  proxy model.

## Model

| member | source | states |
|---|---|---|
| `JsonValue.TypeNameClasses` | json_tree/data_tree_model.py:26-32 | the list, dict and None type names classify exactly the list/tuple, dict/OrderedDict and NoneType types |
| `JsonValue.Default` | json_tree/data_tree_model.py:325 | calling a type with no argument gives a value of that type, and an empty one for containers |
| `JsonValue.Assign` | json_tree/data_tree_model.py:344 | `m[k] = v` keeps an existing key in place with the new value, and appends a new key last |
| `JsonValue.Put` | json_tree/data_tree_model.py:341-344 | storing into a list appends; storing into a mapping assigns by key; a tuple or scalar target raises; the container type is kept |
| `JsonValue.AssignAllFresh` | json_tree/data_tree_model.py:344 | assigning pairs with pairwise distinct keys lays them out in order, one entry each |
| `JsonValue.AssignAllLookupLast` | json_tree/data_tree.py:383 | after a run of assignments, a key holds the value of its last pair: a later duplicate key wins |
| `JsonValue.AssignAllLength` | json_tree/json_tree_ui.py:147-150 | assignment never adds a second entry for a key, so the mapping is at most as long as the pairs assigned |
| `JsonValue.AssignAllDistinct` | json_tree/json_tree_ui.py:145-150 | a mapping filled by assignment from an empty one never holds a key twice |
| `JsonValue.AssignAllClash` | json_tree/json_tree_ui.py:147-150 | two pairs with the same key leave a single entry, so the mapping is shorter than the pairs assigned |
| `JsonValue.PutAllList` | json_tree/data_tree.py:380-381 | filling a list appends the values in order and drops the keys |
| `JsonValue.PutAllObj` | json_tree/data_tree.py:382-383 | filling a mapping assigns the pairs in order |
| `JsonValue.NormPlain` | json_tree/data_tree_model.py:330-346 | rebuilding (fresh OrderedDicts and lists at every level) a well-formed value built of OrderedDicts and lists gives it back unchanged |
| `JsonValue.RoundTripPlain` | json_tree/data_tree_model.py:426-431 | for every mapping, list or null that `json.load` with ordered pairs produces, the load/read-out round trip is the identity, with key and element order kept |
| `JsonValue.ScalarRootLost` | json_tree/data_tree_model.py:324-328 | an int, str or bool root is read out as `0`, `""` or `False` |
| `PyLists.InsertPos` | json_tree/data_tree_model.py:80 | `list.insert` clamps its index into the list, counting negative indexes from the end |
| `PyLists.Insert` | json_tree/data_tree_model.py:80 | `list.insert` puts the element at the clamped position, keeps the elements before and after it in order, and adds exactly that element |
| `PyLists.InsertMembers` | json_tree/data_tree_model.py:80 | after an insert the list holds exactly the old elements and the new one |
| `PyLists.IndexOf` | json_tree/data_tree_model.py:57 | `list.index` finds the first position holding the element |
| `PyLists.RemoveAt` | json_tree/data_tree_model.py:85 | dropping one position shortens the list by one and removes exactly that element from its multiset |
| `PyLists.Remove` | json_tree/data_tree_model.py:85 | `list.remove` drops the first occurrence and keeps the order of the rest |
| `PyLists.DistinctRemove` | json_tree/data_tree_model.py:84-85 | in a list without repeats, removing an element removes its position, and the rest stays free of repeats and of it |
| `PyLists.DistinctInsert` | json_tree/data_tree_model.py:80 | inserting a new element keeps a list free of repeats |
| `PyLists.MovePermutes` | json_tree/data_tree_model.py:245-246 | remove-then-insert permutes the children |
| `PyLists.MoveDistinct` | json_tree/data_tree_model.py:245-246 | remove-then-insert keeps the children free of repeats |
| `PyLists.MoveLands` | json_tree/data_tree_model.py:245-246 | the moved child ends at the destination clamped by `list.insert`, so past the end means last |
| `PyLists.Take` | json_tree/ui_utils.py:398 | `s[:n]` is the prefix of length `min(n, len)`, or `len + n` for a negative `n` |
| `PyText.IntTextRoundTrip` | json_tree/data_tree.py:378 | `int(str(i)) == i` for every integer |
| `PyText.IntToStr` | json_tree/data_tree.py:317 | `str(i)` starts with a minus sign exactly when `i` is negative, and every other character is a decimal digit |
| `PyText.ParseInt` | json_tree/data_tree.py:377-378 | `int(text)` accepts only text whose stripped form ends in a digit, and a negative result comes from a leading minus; `IntTextRoundTrip` gives `int(str(i)) == i` |
| `PyText.StripIntToStr` | json_tree/data_tree.py:378 | the decimal text of an integer has no surrounding whitespace for `int()` to strip |
| `PyText.Replace` | json_tree/batch_widget.py:53-56 | `str.replace` with an empty search text adds one copy of the replacement per gap; replacing any text by itself, the empty one included, gives the string back |
| `PyText.ReplaceFrom` | json_tree/batch_widget.py:53-56 | with a non-empty search text, replacing it by itself gives the string back |
| `PyText.InsertBetween` | json_tree/batch_widget.py:53-56 | `replace` with an empty search text inserts the replacement before every character and at the end |
| `PyText.ReplaceAbsent` | json_tree/batch_widget.py:53-56 | a non-empty search text that does not occur leaves the string unchanged |
| `PyText.Split` | json_tree/ui_utils.py:363 | `str.split` always gives at least one part |
| `PyText.Join` | json_tree/ui_utils.py:363 | `", ".join` keeps every part in order with one separator between neighbours: its length is the parts' total plus the separators, and it starts with the first part |
| `PyText.JoinSplit` | json_tree/ui_utils.py:363 | splitting on `", "` loses nothing: joining the parts gives the text back |
| `PyText.Lower` | json_tree/data_tree_model.py:96-100 | `str.lower` keeps the length and lowers each ASCII capital, leaving every other character |
| `PyText.Title` | json_tree/data_tree_model.py:193 | `str.title` lowers a letter that follows a cased character and raises every other one, keeping the length |
| `PyText.TitleFrom` | json_tree/data_tree_model.py:193 | title casing from a given state characterised position by position, by whether the previous character is cased |
| `PyText.ReprStr` | json_tree/data_tree_model.py:196 | `repr(s)` is quoted with the same quote at both ends: double quotes exactly when the text holds a single quote and no double quote, otherwise single quotes |
| `PyText.Repr` | json_tree/data_tree_model.py:196 | `repr` of a list is bracketed, of a tuple parenthesised, of a dict braced, and of a string quoted |
| `PyText.PyStr` | json_tree/data_tree.py:317 | `str(v)` is the string itself for a str; for a bool it is "True" or "False" and equals "True" exactly when true; for an int it parses back to the same int; for None it is "None" |
| `PyText.TitleWord` | json_tree/data_tree_model.py:193 | a capitalised ASCII word is its own title case |
| `PyText.BoolTitle` | json_tree/data_tree_model.py:193 | a bool value label is `"True"` or `"False"` after `.title()` |
| `UniqueKeys.Candidate` | json_tree/data_tree_model.py:66-67 | each `"_1"` lengthens the candidate by two characters, which is why the loop ends |
| `UniqueKeys.FreeCount` | json_tree/data_tree_model.py:66-67 | the resolver stops at the first number of suffixes whose candidate is free, and every earlier candidate was taken |
| `UniqueKeys.KeyTarget` | json_tree/data_tree_model.py:60-61 | an empty name becomes `"KEY"`, and any other name is kept |
| `UniqueKeys.ResolveName` | json_tree/data_tree_model.py:59-69 | the while loop appending `"_1"` ends with the first free candidate, which is not among the taken keys |
| `UniqueKeys.TakenNameIsExtended` | json_tree/data_tree_model.py:63-67 | a name that is already taken gets at least one `"_1"` |
| `UniqueKeys.FreeNameKept` | json_tree/data_tree_model.py:63-69 | a free name is returned as it is |
| `UniqueKeys.CandidatePrefix` | json_tree/data_tree_model.py:66-67 | the resolved key always starts with the requested name |
| `UniqueKeys.IndexLabel` | json_tree/data_tree_model.py:57 | a list label is the position in brackets |
| `UniqueKeys.IndexLabelInjective` | json_tree/data_tree_model.py:184-185 | distinct positions get distinct `"[i]"` labels |
| `UniqueKeys.Parts` | json_tree/data_tree_model.py:302-320 | a mapping contributes its entries in order; a sequence contributes its items under `"[i]"` keys; a scalar contributes nothing |
| `DataTreeModel.BoolEditNeverFails` | json_tree/data_tree_model.py:94-103 | a bool node accepts every text, and the result is true iff the lowercased text starts with `t` or is `1` or `y` |
| `DataTreeModel.BoolFromText` | json_tree/data_tree_model.py:94-103 | any text starting with `t` or `T` edits a bool to True, and only non-empty text can give True |
| `DataTreeModel.Coerce` | json_tree/data_tree_model.py:90-112 | a successful conversion yields a value of exactly the named type; `bool`, `str`, `list` and `tuple` never fail; `int` fails exactly when `int()` rejects the text |
| `DataTreeModel.UnknownTypeRejects` | json_tree/data_tree_model.py:92-107 | `NoneType` and `OrderedDict` nodes have no builtin converter, so every edit fails |
| `DataTreeModel.IntEditNeedsNumber` | json_tree/data_tree_model.py:107-111 | text that `int()` rejects leaves an int node's value alone |
| `DataTreeModel.SafeKeyFresh` | json_tree/data_tree_model.py:46-50 | a key-safe non-empty key under a mapping is the requested key with at least one `"_1"` appended, because the node is attached before resolving |
| `DataTreeModel.SafeKey` | json_tree/data_tree_model.py:46-69 | under a list or tuple the key is the position label of the new last child; under a mapping it differs from every earlier sibling key and from the requested key itself |
| `DataTreeModel.ChildKeys` | json_tree/data_tree_model.py:87-88 | the child keys are the children's keys in order |
| `DataTreeModel.DistinctRows` | json_tree/data_tree_model.py:81-82 | after renumbering a list of distinct children, every child's row is its position |
| `DataTreeModel.Node.constructor` | json_tree/data_tree_model.py:39-53 | a node records its value and type name, attaches itself as its parent's last child, then (with key safety) resolves its key against the siblings including itself, and resets its row to 0 |
| `DataTreeModel.Node.AddChild` | json_tree/data_tree_model.py:74-82 | without an index the child is appended with row = old child count; with one it is inserted as `list.insert` does and every child's row becomes its position; the child's parent becomes this node |
| `DataTreeModel.Node.Renumber` | json_tree/data_tree_model.py:81-82 | the loop sets each child's row to its position and changes nothing else |
| `DataTreeModel.Node.RemoveChild` | json_tree/data_tree_model.py:84-85 | the first occurrence of the child goes, and no row is renumbered |
| `DataTreeModel.Node.MoveChild` | json_tree/data_tree_model.py:245-246 | remove then insert at the destination: a permutation without repeats, every row equal to its position, and no other node's labels or children touched |
| `DataTreeModel.Node.GetChildKeys` | json_tree/data_tree_model.py:87-88 | the keys of the children in order |
| `DataTreeModel.Node.GetUniqueKey` | json_tree/data_tree_model.py:55-69 | under a list or tuple the key is `"[i]"` for the node's index among the parent's children; otherwise it is the first free `"_1"` extension, which is not among the parent's child keys |
| `DataTreeModel.Node.SetValue` | json_tree/data_tree_model.py:90-112 | the value becomes the conversion of the text by the node's type name, or stays as it was when the conversion raises; nothing else changes |
| `DataTreeModel.KeyLabel` | json_tree/data_tree_model.py:183-187 | the key column shows `"[i]"` for a list or tuple element at index `i`, and the stored key otherwise |
| `DataTreeModel.ValueLabel` | json_tree/data_tree_model.py:189-196 | the value column shows "None" for None, "True" or "False" for a bool, the item count for a container, and for an int text that parses back to it |
| `DataTreeModel.BoolLabelRoundTrip` | json_tree/data_tree_model.py:94-103 | editing a bool with the text its value column shows ("True" or "False") converts back to the same bool |
| `DataTreeModel.LeafLabelRoundTrip` | json_tree/data_tree_model.py:189-199 | editing a leaf with the text its value column shows, under the type name its type column shows, converts back to the same value (a None leaf shows "None" and rejects the edit) |
| `DataTreeModel.PiecesLength` | json_tree/data_tree_model.py:379-384 | a merging insert adds `get_data_length` rows directly under its target, any other insert one row |
| `DataTreeModel.GetDataLength` | json_tree/data_tree_model.py:379-384 | a container counts its parts and a scalar counts one |
| `DataTreeModel.RecursiveGetDataLength` | json_tree/data_tree_model.py:387-406 | a scalar counts one; without merge a container counts at least one for itself plus one per part |
| `DataTreeModel.MergedLengthUndercounts` | json_tree/data_tree_model.py:387-406 | the merge flag is passed down, so the merged count never exceeds the unmerged count less the outer wrapper, which is the number of nodes a merged insert creates |
| `DataTreeModel.NestedMergeGap` | json_tree/data_tree_model.py:387-406 | merging `[[1]]` creates two nodes, but the merged count is one |
| `DataTreeModel.LengthUnfold` | json_tree/data_tree_model.py:387-406 | the recursive count of a container without merge is one for the wrapper plus the counts of its parts |
| `DataTreeModel.KeySafeDistinct` | json_tree/data_tree_model.py:293-322 | a key-safe insert under a mapping keeps the sibling keys pairwise distinct |
| `DataTreeModel.DataModel.constructor` | json_tree/data_tree_model.py:119 | a new model has a root holding None with no children |
| `DataTreeModel.DataModel.GetData` | json_tree/data_tree_model.py:324-328 | reading out fills a fresh object of the root's type from every top-level node, as the reference fill defines |
| `DataTreeModel.DataModel.RecursiveFillData` | json_tree/data_tree_model.py:330-346 | each child's rebuilt value is stored into the output in order; the fill fails exactly when Python would raise |
| `DataTreeModel.DataModel.ChildData` | json_tree/data_tree_model.py:333-339 | a dict or list type name starts a fresh OrderedDict or list filled recursively; any other node gives its stored value |
| `DataTreeModel.DataModel.NewItem` | json_tree/data_tree_model.py:300 | constructing an item appends one fresh node under the parent, with its key resolved only under key safety |
| `DataTreeModel.DataModel.AddDataToModel` | json_tree/data_tree_model.py:297-322 | without merge one node is added; with merge a container's parts are added directly; the new children hold the data with its keys (or pairwise distinct keys under key safety); the number of nodes created is `recursive_get_data_length(v)` without merge, less one for a merged container (`recursive_get_data_length(v, True)` itself counts fewer, see `MergedLengthUndercounts`); older children are kept |
| `DataTreeModel.DataModel.AddPieces` | json_tree/data_tree_model.py:302-320 | the parts of a container are attached in order, each as a non-merging insert with the same key safety |
| `DataTreeModel.DataModel.AddPiece` | json_tree/data_tree_model.py:303-308 | one part goes in as a non-merging insert and extends the placed run |
| `DataTreeModel.DataModel.AddLeaf` | json_tree/data_tree_model.py:321-322 | a scalar becomes one leaf node holding it |
| `DataTreeModel.DataModel.AddWrapped` | json_tree/data_tree_model.py:298-312 | a container becomes one wrapper node holding an empty dict or list, with its parts below it |
| `DataTreeModel.DataModel.FillWrapper` | json_tree/data_tree_model.py:302-320 | after its parts are loaded, the wrapper holds the whole container |
| `DataTreeModel.DataModel.SetData` | json_tree/data_tree_model.py:265-271 | a new root holds the empty value of the data's type; unless the data is None it gets one child holding the data exactly; reading out then gives `RoundTrip(v)` |
| `DataTreeModel.DataModel.RootRoundTrip` | json_tree/data_tree_model.py:324-346 | a root whose single child holds `v` reads out as `RoundTrip(v)` |
| `DataTreeModel.DataModel.HoldsValue` | json_tree/data_tree_model.py:330-346 | a node that holds a value exactly reads out as that value rebuilt with OrderedDicts and lists |
| `DataTreeModel.DataModel.FillEntries` | json_tree/data_tree_model.py:333-344 | filling a mapping from a mapping node assigns the rebuilt entries in order |
| `DataTreeModel.DataModel.FillItems` | json_tree/data_tree_model.py:336-342 | filling a list from a sequence node appends the rebuilt items in order |
| `DataTreeModel.DataModel.FillTupleFails` | json_tree/data_tree_model.py:341-342 | a tuple has no `append`, so filling one from any child raises |
| `DataTreeModel.DataModel.EditCell` | json_tree/data_tree_model.py:203-222 | empty text and non-edit roles are refused with nothing changed; column 0 sets the key verbatim; column 1 converts the value and reports false even on success; column 2 sets the type name; other cells keep their values, and the parent, children and cached row never change |
| `DataTreeModel.DataModel.RemoveRow` | json_tree/data_tree_model.py:224-233 | an invalid row is refused with nothing changed; otherwise exactly that child goes, the others keep their order and their stale rows, and the tree stays valid |
| `DataTreeModel.DataModel.MoveRow` | json_tree/data_tree_model.py:235-249 | an invalid source row is refused and nothing changes; otherwise the child is reinserted into its own parent at the clamped destination, the destination parent is ignored, the children are permuted and every row equals its position; every moved node keeps its key, value, type name, parent and children, and the parent keeps its labels and row |
| `DataTree.LeafTextIsStr` | json_tree/data_tree.py:317 | the value cell of a leaf row is `str(value)` |
| `DataTree.Build` | json_tree/data_tree.py:266-320 | a loaded row carries the given key and the value's type name |
| `DataTree.ChildRows` | json_tree/data_tree.py:279-310 | a container's child rows come in iteration order, each under the key given for it |
| `DataTree.WithChildrenAt` | json_tree/data_tree.py:275 | appending rows below an item leaves that item addressable with exactly the new rows below it |
| `DataTree.PathKept` | json_tree/data_tree.py:147-161 | appending rows anywhere keeps every existing row addressable |
| `DataTree.ResolvedKeysAt` | json_tree/data_tree.py:279-281 | each key of a key-safe mapping is resolved against the sibling keys present when it is added, including those resolved before it |
| `DataTree.ResolvedKeysDistinct` | json_tree/data_tree.py:279-281 | the keys of a key-safe mapping never repeat and never clash with existing siblings |
| `DataTree.NewRowsPlain` | json_tree/data_tree.py:283-287 | nested loads pass neither merge nor key safety, so they append exactly the built row |
| `DataTree.NewRows` | json_tree/data_tree.py:266-320 | a leaf, or a container loaded without merge, appends exactly one row with the given key and the value's type name; a merged container appends one row per part |
| `DataTree.ResolvedKeys` | json_tree/data_tree.py:279-281 | one resolved key per name |
| `DataTree.PieceKeys` | json_tree/data_tree.py:279-304 | one key per part of the container |
| `DataTree.UniqueKey` | json_tree/data_tree.py:329-347 | with the type check under a list parent the key is the next row label; otherwise it is not among the parent's existing keys |
| `DataTree.DataTreeWidget.constructor` | json_tree/data_tree.py:42-49 | a new widget has no rows and no root type |
| `DataTree.DataTreeWidget.GetUniqueKey` | json_tree/data_tree.py:329-347 | with the type checked under a list parent, the key is `"[rowCount]"`; otherwise it is the first free `"_1"` extension of the name (or "KEY"), which is not among the existing child keys |
| `DataTree.DataTreeWidget.AddDataToTree` | json_tree/data_tree.py:261-322 | the rows for the data are appended below the parent (merging puts a container's parts there directly, otherwise one wrapper or leaf row); the root type is recorded at the top; the result lists the key item of every created row in creation order |
| `DataTree.DataTreeWidget.AppendLeaf` | json_tree/data_tree.py:312-320 | a leaf row `[key, str(value), type name]` is appended, its key resolved under key safety |
| `DataTree.DataTreeWidget.AppendWrapper` | json_tree/data_tree.py:267-299 | without merge, exactly one wrapper row `[key, "", type name]` is created first, and the parts go below it |
| `DataTree.DataTreeWidget.AppendWrapperRow` | json_tree/data_tree.py:268-277 | the wrapper row is appended with no children yet, and the following parts are addressed below it |
| `DataTree.DataTreeWidget.AddNested` | json_tree/data_tree.py:283-287 | a nested load appends exactly the built row for its value |
| `DataTree.DataTreeWidget.PartKey` | json_tree/data_tree.py:279-304 | under key safety a mapping part's key is resolved without the type check, and a list part is labelled `"[rowCount]"` |
| `DataTree.DataTreeWidget.AddParts` | json_tree/data_tree.py:279-310 | the loops append one row tree per part, in iteration order, and collect the created key items in order |
| `DataTree.DataTreeWidget.AddPart` | json_tree/data_tree.py:279-310 | one part is loaded below the target under its resolved key |
| `DataTree.DataTreeWidget.RecursiveModelToData` | json_tree/data_tree.py:356-385 | the rows below an item are rebuilt into the output in order, as the reference rebuild defines |
| `DataTree.DataTreeWidget.ModelStep` | json_tree/data_tree.py:380-383 | one child's value is appended to a list, or assigned by key into a mapping |
| `DataTree.DataTreeWidget.ChildModelValue` | json_tree/data_tree.py:361-378 | dict/OrderedDict rows become OrderedDicts and list/tuple rows become lists; a leaf's text is converted through its type name |
| `DataTree.DataTreeWidget.GetTreeData` | json_tree/data_tree.py:182-187 | reading out fills a fresh object of the remembered root type from the children of every top-level row |
| `DataTree.DataTreeWidget.SetTreeData` | json_tree/data_tree.py:177-180 | after a load there is one top row built from the data, the root type is remembered, and reading out gives `RoundTrip(v)` |
| `DataTree.DataTreeWidget.PasteAt` | json_tree/data_tree.py:147-161 | a target whose type name cannot hold children is skipped; merging a mapping into a list or tuple pastes its values; otherwise the data is loaded key-safe below the target |
| `DataTree.DataTreeWidget.AddDataToSelected` | json_tree/data_tree.py:143-161 | pasting into several selected rows is the one-target paste applied to each target in turn |
| `DataTree.PasteOne` | json_tree/data_tree.py:147-161 | a target that cannot hold children is left as it is; otherwise rows are only appended below it, its old rows staying first, and every existing row stays addressable |
| `DataTree.PathsKept` | json_tree/data_tree.py:147-161 | appending rows below one item keeps every existing row addressable |
| `DataTree.PasteAll` | json_tree/data_tree.py:143-161 | pasting into the targets one after another keeps every existing row addressable |
| `DataTree.LeafRowValue` | json_tree/data_tree.py:367-378 | a leaf row's text converts back to the leaf: `NoneType` gives None, `bool` compares with `"True"`, `int` parses, and `str` is kept |
| `DataTree.LeafValue` | json_tree/data_tree.py:367-378 | only an `int` cell can fail to convert, exactly when `int()` rejects it; a converted leaf is a scalar of the type its type cell names |
| `DataTree.RowValue` | json_tree/data_tree.py:361-378 | a dict or OrderedDict row reads back as an OrderedDict and a list or tuple row as a list |
| `DataTree.Rebuild` | json_tree/data_tree.py:356-385 | filling keeps the output's type, a filled list gains one item per row, and a tuple or scalar output with rows left fails |
| `DataTree.ReadTop` | json_tree/data_tree.py:182-187 | filling the root from the top rows keeps the root's type |
| `DataTree.TreeData` | json_tree/data_tree.py:182-187 | without a root type reading out fails; a successful read-out has the root type; an empty model reads out as the empty value of that type |
| `DataTree.RowValueBuild` | json_tree/data_tree.py:356-385 | the rows built for a value read back as that value rebuilt with OrderedDicts and lists |
| `DataTree.RebuildEntries` | json_tree/data_tree.py:363-383 | filling a mapping from entry rows assigns their rebuilt values in order |
| `DataTree.RebuildItems` | json_tree/data_tree.py:366-381 | filling a list from item rows appends their rebuilt values in order |
| `DataTree.SetGetRoundTrip` | json_tree/data_tree.py:387-393 | loading a value at the top and reading out gives `RoundTrip(v)`, the same result the node tree gives |
| `DataTree.TopTuple` | json_tree/data_tree.py:380-381 | a tuple root reads out only when it is empty, because appending to a tuple raises |
| `DataTree.CreatedSnoc` | json_tree/data_tree.py:306-310 | the created key items of rows added one by one concatenate in creation order |
| `RecursiveModify.RenamedEntries` | json_tree/json_tree_ui.py:146-150 | each entry is renamed (when keys are modified) and its value mapped, in iteration order |
| `RecursiveModify.Modify` | json_tree/json_tree_ui.py:143-162 | mappings come out as OrderedDicts, sequences as lists, and leaves keep their type |
| `RecursiveModify.ModifyObj` | json_tree/json_tree_ui.py:144-150 | a mapping becomes a fresh OrderedDict assigned the renamed entries in order |
| `RecursiveModify.ModifyList` | json_tree/json_tree_ui.py:152-156 | a list or tuple becomes a list of the same length, each element mapped in place |
| `RecursiveModify.ModifyLeaf` | json_tree/json_tree_ui.py:157-160 | only a `str` leaf changes, and only when values are modified; int, bool and None leaves pass through |
| `RecursiveModify.ModifyUnchanged` | json_tree/json_tree_ui.py:143-162 | with nothing to modify, or with an identity function, the result is the input rebuilt (dict to OrderedDict, tuple to list) |
| `RecursiveModify.ModifyLaterWins` | json_tree/json_tree_ui.py:147-150 | under a renamed key the result holds the value of the last entry renamed to it |
| `RecursiveModify.ModifyNoLonger` | json_tree/json_tree_ui.py:144-150 | the renamed mapping is never longer than the original |
| `RecursiveModify.ModifyKeepsOrder` | json_tree/json_tree_ui.py:144-150 | when the renamed keys are distinct, the entries keep their order one for one |
| `RecursiveModify.ModifyMergesClashingKeys` | json_tree/json_tree_ui.py:147-150 | any two entries renamed to the same key collapse: the result has fewer entries than the input, no key twice, and under that key the value of the last entry renamed to it |
| `BatchModify.ApplyAllSnoc` | json_tree/batch_widget.py:52-56 | a pair added last is applied to the output of all the earlier pairs |
| `BatchModify.ApplyAll` | json_tree/batch_widget.py:52-56 | the pairs are applied in turn, first pair first; pairs that replace a text by itself change nothing |
| `BatchModify.SkipAbsent` | json_tree/batch_widget.py:53-56 | a pair whose non-empty search text does not occur leaves the string to the remaining pairs unchanged |
| `BatchModify.BatchModifyWidget.constructor` | json_tree/batch_widget.py:10-20 | the panel starts with no search/replace line and with empty prefix and suffix |
| `BatchModify.BatchModifyWidget.AddSearchReplaceLine` | json_tree/batch_widget.py:39-43 | exactly one empty line is appended at the end |
| `BatchModify.BatchModifyWidget.SetLineText` | json_tree/batch_widget.py:65-68 | typing into line `k` changes only that pair |
| `BatchModify.BatchModifyWidget.RemoveSrWidget` | json_tree/batch_widget.py:45-48 | exactly that line is removed and the others keep their order; a line that is not there raises and changes nothing |
| `BatchModify.BatchModifyWidget.ModifyString` | json_tree/batch_widget.py:50-57 | the result is the prefix, then the pairs applied in order, then the suffix; so it starts with the prefix and ends with the suffix, and with no pairs it is `prefix + s + suffix` |
| `RecentPaths.StoredPaths` | json_tree/ui_utils.py:359-365 | a stored list is used as it is, a non-empty text is split on `", "`, and a missing or empty value gives `[]` |
| `RecentPaths.StoredTextReadBack` | json_tree/ui_utils.py:363 | a text read back as paths loses nothing |
| `RecentPaths.Others` | json_tree/ui_utils.py:392-395 | the other entries, in their order, without the path |
| `RecentPaths.Recent` | json_tree/ui_utils.py:382-400 | the written list has the added path first whenever the amount is at least 1, and never more entries than the amount |
| `RecentPaths.RecentBound` | json_tree/ui_utils.py:397-398 | truncation drops entries from the end: the stored list is a prefix of the path followed by the list without the removed occurrence |
| `RecentPaths.RecentDistinct` | json_tree/ui_utils.py:392-395 | on a list without repeats, the result is the path followed by all other entries in their old order, clamped, and it stays without repeats |
| `RecentPaths.RecentKeepsLaterDuplicate` | json_tree/ui_utils.py:390-395 | for any list holding the path, only its first occurrence is removed: the entries before it move one place back, and every later entry, a later copy of the path included, keeps its position |
| `RecentPaths.LastIndexOf` | json_tree/ui_utils.py:300 | the index map keeps the last index of each text |
| `RecentPaths.ComboAfterSet` | json_tree/ui_utils.py:299-310 | the combo box holds the path first whenever the amount is at least 1, and never more entries than the amount |
| `RecentPaths.ComboBound` | json_tree/ui_utils.py:299-310 | the combo box keeps a prefix of the path followed by the entries without the removed copy |
| `RecentPaths.ComboMatchesSettings` | json_tree/ui_utils.py:299-310 | on entries without repeats, the combo box and the settings file agree |
| `RecentPaths.ComboDropsLastDuplicate` | json_tree/ui_utils.py:300-302 | for any list holding the path, the combo box removes its last copy: entries before that copy move one place back, entries after it keep their position |
| `RecentPaths.ComboDisagreesOnDuplicate` | json_tree/ui_utils.py:299-302 | when the path occurs twice and the entry after its first copy is another path within the limit, the combo box and the settings file disagree |
| `RecentPaths.ClampStep` | json_tree/ui_utils.py:309-310 | one turn of the clamping loop removes the first entry past the limit |
| `RecentPaths.RecentPathSettings.constructor` | json_tree/ui_utils.py:338-350 | the settings object keeps the amount and the stored entry |
| `RecentPaths.RecentPathSettings.GetRecentPaths` | json_tree/ui_utils.py:352-365 | a stored list comes back as it is, and a missing value as `[]` |
| `RecentPaths.RecentPathSettings.AddRecentPath` | json_tree/ui_utils.py:382-400 | the written list is the reference update; the path comes first; the list stays within the amount and without repeats |
| `RecentPaths.PathWidget.constructor` | json_tree/ui_utils.py:218-239 | the amount is made non-negative, and the combo box starts with the stored recent paths |
| `RecentPaths.PathWidget.ClampItems` | json_tree/ui_utils.py:309-310 | removing the item at index `amount` while there are too many keeps exactly the first `amount` items |
| `RecentPaths.PathWidget.SetPath` | json_tree/ui_utils.py:285-310 | the settings get the path; in the combo box the last copy of the path goes, the path is inserted at 0 and selected, and the list is clamped; it holds the path first, stays within the amount, and agrees with the settings on entries without repeats |

## Left out

- Floats are left out: float leaves, `float(text)`, `str(float)` and
  `int(abs(recent_paths_amount))` on a float amount. Only null, bool, int and
  str scalars are modelled.
- Qt view plumbing is left out: `index`, `parent`, `flags`, `headerData`,
  `rowCount`/`columnCount`, the `begin*`/`end*` notifications,
  `get_all_indices`, `get_index_from_item`, the selection helpers, context
  menus and view settings. These are UI framework calls with no tree logic.
  Selected rows are given to `AddDataToSelected` as a list of row paths.
  The `path_changed` signal that `set_path` emits at the end is left out too.
- Filtering (`set_filter`, `DataSortFilterProxyModel`) is left out. It is
  delegated entirely to Qt's `QSortFilterProxyModel`.
- Clipboard cut/copy/paste, JSON text parsing and dumping, and file load/save
  are left out. They are foreign calls into the `json` module and the
  clipboard.
- Move up/down actions are left out: they are unimplemented stubs.
- Duplicate, `_recursive_item_modify` and `modify_rename` are left out.
  They are driven by the selection model and by Qt item editing.
- Relative-path conversion (`os.path.relpath`, `splitdrive`) is left out:
  it is foreign path library behaviour. The combo box is modelled with full
  paths.
- Window, Maya and reload code is left out.
- The messages printed on a failed conversion or an unsupported paste target
  are left out.
- Node identity (Python object identity) is a ghost `id` in the model, used
  only to prove that reading out terminates.
- `DataTree.LeafValue` converts a leaf cell whose type name is any builtin
  other than `NoneType`, `bool` and `int` by keeping its text. This is right
  for `str` and for names that are not builtins. In Python, a type cell
  renamed to another builtin calls it: `float(text)` parses, `bytes(text)`
  raises and `print(text)` gives None. Those calls are not modelled.
- `DataTreeModel.Coerce` covers the builtins named `str`, `int`, `bool`,
  `list`, `tuple` and `dict`. A type cell renamed to any other builtin name
  (`float`, `bytes`, `print`, ...) is modelled as a failed conversion.
- `DataTreeModel.DataModel.SetData` creates the new root with the key `""`.
  In Python the root's key is `None`, and it is never read.
- `DataTree.DataTreeWidget.AddDataToTree` requires a non-root parent for a
  key-safe load. At the invisible root, `get_key_names` reads through an
  invalid index. The callers always pass a selected row.
- `PyText.ParseInt` accepts ASCII digits only. Python's `int()` also accepts
  other Unicode decimal digits.
- `PyText.Lower` and `PyText.Title` change the case of ASCII letters only.
  Python also changes the case of non-ASCII letters. No non-ASCII character
  lowercases to `t`, `1` or `y`, so the bool edit rule is unaffected.
- `PyText.ReprStr` escapes only ASCII control characters. Python also
  escapes non-printable non-ASCII characters.
- `PyText.Repr` prints an OrderedDict the way Python up to 3.11 does.
