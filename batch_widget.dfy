// The batch modify panel: an ordered list of search/replace lines and a
// prefix and suffix, applied to every selected key or value.

module BatchModify {
  import opened PyText

  /** One search/replace line: the text searched for and its replacement. */
  type SearchReplace = (string, string)

  /**
   * The string after every pair of `ps` was applied in turn, first pair
   * first; pairs that replace a text by itself change nothing.
   */
  function ApplyAll(s: string, ps: seq<SearchReplace>): (r: string)
    ensures (forall i :: 0 <= i < |ps| ==> ps[i].0 == ps[i].1) ==> r == s
    decreases |ps|
  {
    if ps == [] then s
    else
      assert forall i :: 0 <= i < |ps| - 1 ==> ps[1..][i] == ps[i + 1];
      ApplyAll(Replace(s, ps[0].0, ps[0].1), ps[1..])
  }

  /** A pair added last is applied to the output of all the earlier ones. */
  lemma {:induction false} ApplyAllSnoc(s: string, ps: seq<SearchReplace>, p: SearchReplace)
    ensures ApplyAll(s, ps + [p]) == Replace(ApplyAll(s, ps), p.0, p.1)
    decreases |ps|
  {
    if ps != [] {
      assert (ps + [p])[1..] == ps[1..] + [p];
      ApplyAllSnoc(Replace(s, ps[0].0, ps[0].1), ps[1..], p);
    }
  }

  /** A pair whose non-empty search text does not occur leaves the string as it is. */
  lemma SkipAbsent(s: string, p: SearchReplace, ps: seq<SearchReplace>)
    requires p.0 != [] && !Contains(s, p.0)
    ensures ApplyAll(s, [p] + ps) == ApplyAll(s, ps)
  {
    ReplaceAbsent(s, p.0, p.1);
    assert ([p] + ps)[1..] == ps;
  }

  class BatchModifyWidget {
    /** The search/replace lines, in the order they were added. */
    var pairs: seq<SearchReplace>
    /** The texts of the prefix and suffix line edits. */
    var prefix: string
    var suffix: string

    /** The panel starts with no search/replace line and empty prefix and suffix. */
    constructor ()
      ensures pairs == [] && prefix == "" && suffix == ""
    {
      pairs := [];
      prefix := "";
      suffix := "";
    }

    /** `add_search_replace_line`: one new line, with empty texts, goes last. */
    method AddSearchReplaceLine()
      modifies this
      ensures pairs == old(pairs) + [("", "")]
      ensures prefix == old(prefix) && suffix == old(suffix)
    {
      pairs := pairs + [("", "")];
    }

    /** What the user types into the two line edits of line `k`. */
    method SetLineText(k: nat, search: string, replace: string)
      requires k < |pairs|
      modifies this
      ensures pairs == old(pairs)[k := (search, replace)]
      ensures prefix == old(prefix) && suffix == old(suffix)
    {
      pairs := pairs[k := (search, replace)];
    }

    /**
     * `remove_sr_widget`: the line at position `k` goes and the others keep
     * their order; a line that is not in the list makes `list.remove`
     * raise, reported as false with nothing changed.
     */
    method RemoveSrWidget(k: int) returns (ok: bool)
      modifies this
      ensures ok <==> 0 <= k < |old(pairs)|
      ensures ok ==> pairs == old(pairs)[..k] + old(pairs)[k + 1..]
      ensures !ok ==> pairs == old(pairs)
      ensures prefix == old(prefix) && suffix == old(suffix)
    {
      if !(0 <= k < |pairs|) {
        return false;
      }
      pairs := pairs[..k] + pairs[k + 1..];
      return true;
    }

    /**
     * `modify_string`: every line's replacement is applied in turn to the
     * output of the previous one, then the prefix and suffix are added.
     */
    method ModifyString(input: string) returns (r: string)
      ensures r == prefix + ApplyAll(input, pairs) + suffix
      ensures r[..|prefix|] == prefix && r[|r| - |suffix|..] == suffix
      ensures pairs == [] ==> r == prefix + input + suffix
    {
      var out := input;
      var i := 0;
      while i < |pairs|
        invariant 0 <= i <= |pairs|
        invariant ApplyAll(out, pairs[i..]) == ApplyAll(input, pairs)
      {
        assert pairs[i..][1..] == pairs[i + 1..];
        out := Replace(out, pairs[i].0, pairs[i].1);
        i := i + 1;
      }
      assert pairs[i..] == [];
      r := prefix + out + suffix;
      assert r[..|prefix|] == prefix;
      assert r[|r| - |suffix|..] == suffix;
    }
  }
}
