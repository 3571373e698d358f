// The most-recently-used path list of the path widget: the copy kept in
// the settings file and the copy shown in the combo box. Both put the new
// path first and clamp the list; the settings copy drops the first earlier
// occurrence of the path, the combo box its last one.

module RecentPaths {
  import opened PyLists
  import opened PyText

  /** What the settings file hands back for the recent-paths key. */
  datatype SettingValue =
    | ListValue(paths: seq<string>)
    | TextValue(text: string)
    | NoValue

  const Separator: string := ", "

  /**
   * `get_recent_paths(full_paths=True)`: a list is taken as it is, a
   * non-empty text is split on ", ", a missing or empty value is no path.
   */
  function StoredPaths(v: SettingValue): (ps: seq<string>)
    ensures v.ListValue? ==> ps == v.paths
    ensures v.TextValue? && v.text != "" ==> ps == Split(v.text, Separator)
    ensures v.NoValue? || v == TextValue("") ==> ps == []
  {
    match v
    case ListValue(ps) => ps
    case TextValue(t) => if t != "" then Split(t, Separator) else []
    case NoValue => []
  }

  /** A text read back as paths loses nothing: joining the paths gives the text again. */
  lemma StoredTextReadBack(t: string)
    requires t != ""
    ensures |StoredPaths(TextValue(t))| > 0
    ensures Join(StoredPaths(TextValue(t)), Separator) == t
  {
    JoinSplit(t, Separator);
  }

  /**
   * `add_recent_path`: the list written back after `p` was added to
   * `paths`. The path comes first whenever the list may hold one entry,
   * and the list never exceeds `amount` entries.
   */
  function Recent(paths: seq<string>, p: string, amount: int): (r: seq<string>)
    ensures amount >= 1 ==> |r| >= 1 && r[0] == p
    ensures amount >= 0 ==> |r| <= amount
  {
    var rest := if p in paths then Remove(paths, p) else paths;
    var added := Insert(rest, 0, p);
    assert added == [p] + rest;
    if |added| > amount then Take(added, amount) else added
  }

  /** The elements other than `p`, in their order. */
  function Others(s: seq<string>, p: string): (r: seq<string>)
    ensures p !in r
    ensures forall x :: x in r ==> x in s
    ensures p !in s ==> r == s
  {
    if s == [] then []
    else (if s[0] == p then [] else [s[0]]) + Others(s[1..], p)
  }

  /** Removing the only occurrence of `p` leaves the other elements. */
  lemma {:induction false} OthersRemoveAt(s: seq<string>, k: nat, p: string)
    requires k < |s| && s[k] == p
    requires forall j :: 0 <= j < |s| && j != k ==> s[j] != p
    ensures Others(s, p) == RemoveAt(s, k)
  {
    if k > 0 {
      OthersRemoveAt(s[1..], k - 1, p);
      assert RemoveAt(s, k) == [s[0]] + RemoveAt(s[1..], k - 1);
    } else {
      assert Others(s[1..], p) == s[1..];
    }
  }

  /** An element that occurs once and is removed leaves `Others`, wherever it is. */
  lemma DistinctOthers(s: seq<string>, k: nat)
    requires Distinct(s) && k < |s|
    ensures RemoveAt(s, k) == Others(s, s[k])
  {
    OthersRemoveAt(s, k, s[k]);
  }

  /** Elements of a list without repeats are found at their own position. */
  lemma DistinctIndexOf(s: seq<string>, k: nat)
    requires Distinct(s) && k < |s|
    ensures IndexOf(s, s[k]) == k
  {
  }

  /**
   * Clamping drops entries from the end: the stored list is a prefix of
   * the path followed by the list without the removed occurrence.
   */
  lemma RecentBound(paths: seq<string>, p: string, amount: int)
    requires amount >= 0
    ensures var rest := if p in paths then Remove(paths, p) else paths;
            Recent(paths, p, amount) == ([p] + rest)[..|Recent(paths, p, amount)|]
  {
    var rest := if p in paths then Remove(paths, p) else paths;
    FrontPrefix(p, rest, amount, Recent(paths, p, amount));
  }

  /** Clamping the list with `p` put in front keeps a prefix of at most `amount` elements. */
  lemma FrontPrefix(p: string, rest: seq<string>, amount: int, r: seq<string>)
    requires amount >= 0
    requires r == var added := Insert(rest, 0, p); if |added| > amount then Take(added, amount) else added
    ensures |r| <= amount && r == ([p] + rest)[..|r|]
  {
    assert Insert(rest, 0, p) == [p] + rest;
  }

  /**
   * On a list without repeats the stored list is the new path followed by
   * all other paths in their old order, clamped; and it has no repeats.
   */
  lemma RecentDistinct(paths: seq<string>, p: string, amount: int)
    requires Distinct(paths)
    ensures Recent(paths, p, amount) == Take([p] + Others(paths, p), amount)
    ensures Distinct(Recent(paths, p, amount))
  {
    var rest := if p in paths then Remove(paths, p) else paths;
    if p in paths {
      var k := IndexOf(paths, p);
      DistinctOthers(paths, k);
      DistinctRemove(paths, k);
    }
    assert rest == Others(paths, p);
    assert Insert(rest, 0, p) == [p] + rest;
    DistinctInsert(rest, 0, p);
    var r := Recent(paths, p, amount);
    assert r == Take([p] + rest, amount);
    forall i, j | 0 <= i < j < |r| ensures r[i] != r[j] {
      assert r[i] == ([p] + rest)[i] && r[j] == ([p] + rest)[j];
    }
  }

  /**
   * Only the first earlier occurrence of the path goes: the entries before
   * it move one place back, and every entry after it, a later copy of the
   * path included, keeps its position.
   */
  lemma RecentKeepsLaterDuplicate(paths: seq<string>, p: string, amount: int)
    requires p in paths
    ensures Recent(paths, p, amount) == Take([p] + RemoveAt(paths, IndexOf(paths, p)), amount)
    ensures forall j :: 0 <= j < IndexOf(paths, p) && j + 1 < amount ==> Recent(paths, p, amount)[j + 1] == paths[j]
    ensures forall j :: IndexOf(paths, p) < j < |paths| && j < amount ==> Recent(paths, p, amount)[j] == paths[j]
  {
    var k := IndexOf(paths, p);
    var added := [p] + RemoveAt(paths, k);
    assert Insert(RemoveAt(paths, k), 0, p) == added;
    ShiftedEntries(paths, k, p, amount);
  }

  /** Where the entries of `s` sit once the one at `k` is removed and `p` is put in front. */
  lemma ShiftedEntries(s: seq<string>, k: nat, p: string, amount: int)
    requires k < |s|
    ensures forall j :: 0 <= j < k && j + 1 < amount ==> Take([p] + RemoveAt(s, k), amount)[j + 1] == s[j]
    ensures forall j :: k < j < |s| && j < amount ==> Take([p] + RemoveAt(s, k), amount)[j] == s[j]
  {
    var added := [p] + RemoveAt(s, k);
    assert |added| == |s|;
    forall j | 0 <= j < k && j + 1 < amount ensures Take(added, amount)[j + 1] == s[j] {
      assert added[j + 1] == s[j];
    }
    forall j | k < j < |s| && j < amount ensures Take(added, amount)[j] == s[j] {
      assert added[j] == s[j];
    }
  }

  /** The position the index map `{text: i}` keeps for `x`: the last one. */
  function LastIndexOf(s: seq<string>, x: string): (k: nat)
    requires x in s
    ensures k < |s| && s[k] == x
    ensures forall j :: k < j < |s| ==> s[j] != x
  {
    if s[|s| - 1] == x then |s| - 1 else LastIndexOf(s[..|s| - 1], x)
  }

  /**
   * The combo box entries after `set_path(p)` clamps them to `amount`: the
   * path first, at most `amount` entries.
   */
  function ComboAfterSet(items: seq<string>, p: string, amount: nat): (r: seq<string>)
    ensures |r| <= amount
    ensures amount >= 1 ==> |r| >= 1 && r[0] == p
  {
    var rest := if p in items then RemoveAt(items, LastIndexOf(items, p)) else items;
    assert Insert(rest, 0, p) == [p] + rest;
    Take(Insert(rest, 0, p), amount)
  }

  /** The combo box keeps a prefix of the path followed by the entries without the removed copy. */
  lemma ComboBound(items: seq<string>, p: string, amount: nat)
    ensures var rest := if p in items then RemoveAt(items, LastIndexOf(items, p)) else items;
            ComboAfterSet(items, p, amount) == ([p] + rest)[..|ComboAfterSet(items, p, amount)|]
  {
    var rest := if p in items then RemoveAt(items, LastIndexOf(items, p)) else items;
    assert Insert(rest, 0, p) == [p] + rest;
  }

  /**
   * On entries without repeats the combo box and the settings file agree:
   * both hold the path followed by the other entries, clamped.
   */
  lemma ComboMatchesSettings(items: seq<string>, p: string, amount: nat)
    requires Distinct(items)
    ensures ComboAfterSet(items, p, amount) == Take([p] + Others(items, p), amount)
    ensures ComboAfterSet(items, p, amount) == Recent(items, p, amount)
  {
    var rest := if p in items then RemoveAt(items, LastIndexOf(items, p)) else items;
    if p in items {
      DistinctOthers(items, LastIndexOf(items, p));
    }
    assert Insert(rest, 0, p) == [p] + rest;
    RecentDistinct(items, p, amount);
  }

  /**
   * The combo box drops the last copy of the path instead: the entries
   * before it move one place back, the entries after it keep their position.
   */
  lemma ComboDropsLastDuplicate(items: seq<string>, p: string, amount: nat)
    requires p in items
    ensures ComboAfterSet(items, p, amount) == Take([p] + RemoveAt(items, LastIndexOf(items, p)), amount)
    ensures forall j :: 0 <= j < LastIndexOf(items, p) && j + 1 < amount ==>
      ComboAfterSet(items, p, amount)[j + 1] == items[j]
    ensures forall j :: LastIndexOf(items, p) < j < |items| && j < amount ==>
      ComboAfterSet(items, p, amount)[j] == items[j]
  {
    var k := LastIndexOf(items, p);
    assert Insert(RemoveAt(items, k), 0, p) == [p] + RemoveAt(items, k);
    ShiftedEntries(items, k, p, amount);
  }

  /**
   * When the path occurs twice and the entry after its first copy is
   * another path, the combo box and the settings file disagree as soon as
   * that entry is within the limit.
   */
  lemma ComboDisagreesOnDuplicate(items: seq<string>, p: string, amount: nat)
    requires p in items && IndexOf(items, p) < LastIndexOf(items, p)
    requires items[IndexOf(items, p) + 1] != p && IndexOf(items, p) + 2 <= amount
    ensures ComboAfterSet(items, p, amount) != Recent(items, p, amount)
  {
    var k := IndexOf(items, p);
    RecentKeepsLaterDuplicate(items, p, amount);
    ComboDropsLastDuplicate(items, p, amount);
    assert Recent(items, p, amount)[k + 1] == items[k + 1];
    assert ComboAfterSet(items, p, amount)[k + 1] == items[k];
  }

  /** One turn of the clamping loop removes the first entry past the limit. */
  lemma ClampStep(full: seq<string>, items: seq<string>, amount: nat)
    requires amount < |items| <= |full|
    requires items == full[..amount] + full[|full| - |items| + amount..]
    ensures RemoveAt(items, amount) == full[..amount] + full[|full| - (|items| - 1) + amount..]
  {
    assert items[..amount] == full[..amount];
    assert items[amount + 1..] == full[|full| - |items| + amount + 1..];
  }

  class RecentPathSettings {
    /** The recent-paths entry of the settings file. */
    var stored: SettingValue
    /** `recent_paths_amount` */
    const amount: int

    /** The settings file's content when the object is made is given as `initial`. */
    constructor (amount: int, initial: SettingValue)
      ensures this.amount == amount && stored == initial
    {
      this.amount := amount;
      stored := initial;
    }

    /** `get_recent_paths(full_paths=True)` */
    function GetRecentPaths(): (ps: seq<string>)
      reads this
      ensures stored.ListValue? ==> ps == stored.paths
      ensures stored.NoValue? ==> ps == []
    {
      StoredPaths(stored)
    }

    /**
     * `add_recent_path(p)`: the first earlier occurrence of `p` is removed,
     * `p` goes in front, the list is clamped to `amount` and written back.
     */
    method AddRecentPath(p: string)
      modifies this
      ensures stored == ListValue(Recent(old(GetRecentPaths()), p, amount))
      ensures amount >= 1 ==> GetRecentPaths()[0] == p
      ensures amount >= 0 ==> |GetRecentPaths()| <= amount
      ensures Distinct(old(GetRecentPaths())) ==> Distinct(GetRecentPaths())
    {
      ghost var before := GetRecentPaths();
      var paths := GetRecentPaths();
      if p in paths {
        paths := Remove(paths, p);
      }
      paths := Insert(paths, 0, p);
      if |paths| > amount {
        paths := Take(paths, amount);
      }
      stored := ListValue(paths);
      assert paths == Recent(before, p, amount);
      if Distinct(before) {
        RecentDistinct(before, p, amount);
      }
    }
  }

  class PathWidget {
    /** The settings object the widget stores full paths in. */
    const settings: RecentPathSettings
    /** `recent_paths_amount`, made non-negative when the widget is built. */
    const amount: nat
    /** The combo box entries, top first. */
    var items: seq<string>
    /** The combo box's current index; -1 when it is empty. */
    var current: int

    /**
     * The widget clamps its amount to `abs`, and the combo box starts with
     * the stored recent paths; adding items to an empty combo box selects
     * the first one.
     */
    constructor (amount: int, initial: SettingValue)
      ensures this.amount == (if amount < 0 then -amount else amount)
      ensures fresh(settings) && settings.amount == this.amount && settings.stored == initial
      ensures items == StoredPaths(initial)
      ensures current == if items == [] then -1 else 0
    {
      var n: nat := if amount < 0 then -amount else amount;
      this.amount := n;
      settings := new RecentPathSettings(n, initial);
      items := StoredPaths(initial);
      current := if StoredPaths(initial) == [] then -1 else 0;
    }

    /**
     * The clamping loop of `set_path`: the entry at index `amount` is
     * removed while there are more than `amount`; the first `amount`
     * entries stay. Removing the last entry leaves no current index.
     */
    method ClampItems()
      requires current == if items == [] then -1 else 0
      modifies this
      ensures items == Take(old(items), amount)
      ensures current == if items == [] then -1 else 0
    {
      ghost var full := items;
      while |items| > amount
        invariant |full| <= amount ==> items == full
        invariant |full| > amount ==> amount <= |items| <= |full| &&
                                      items == full[..amount] + full[|full| - |items| + amount..]
        invariant current == old(current)
        decreases |items|
      {
        ClampStep(full, items, amount);
        items := RemoveAt(items, amount);
      }
      if items == [] {
        current := -1;
      }
    }

    /**
     * `set_path(p)`: the path is added to the settings; in the combo box
     * the entry the index map holds for it (its last copy) goes, the path
     * is inserted at the top and selected, then the entry just past the
     * limit is removed while there are too many.
     */
    method SetPath(p: string)
      modifies this, settings
      ensures settings.stored == ListValue(Recent(old(settings.GetRecentPaths()), p, settings.amount))
      ensures items == ComboAfterSet(old(items), p, amount)
      ensures current == if items == [] then -1 else 0
      ensures |items| <= amount
      ensures amount >= 1 ==> items[0] == p && current == 0
      ensures Distinct(old(items)) ==> items == Recent(old(items), p, amount) && Distinct(items)
    {
      settings.AddRecentPath(p);
      ghost var before := items;
      if p in items {
        items := RemoveAt(items, LastIndexOf(items, p));
      }
      items := Insert(items, 0, p);
      current := 0;
      ClampItems();
      ComboBound(before, p, amount);
      if Distinct(before) {
        ComboMatchesSettings(before, p, amount);
        RecentDistinct(before, p, amount);
      }
    }
  }
}
