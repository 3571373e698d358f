// Sibling-key resolution shared by both tree implementations: an empty
// name becomes "KEY", and "_1" is appended until the name is free. Also
// the "[i]" labels list elements are shown under, and the keyed parts a
// container contributes to the tree.

module UniqueKeys {
  import opened JsonValue
  import opened PyText

  const DefaultKeyName: string := "KEY"

  /** The name with `k` copies of "_1" appended. */
  function Candidate(name: string, k: nat): (r: string)
    ensures |r| == |name| + 2 * k
  {
    if k == 0 then name else Candidate(name, k - 1) + "_1"
  }

  /** An upper bound on the length of every taken name. */
  function MaxLen(taken: seq<string>): (r: nat)
    ensures forall i :: 0 <= i < |taken| ==> |taken[i]| <= r
  {
    if taken == [] then 0
    else
      var rest := MaxLen(taken[1..]);
      if |taken[0]| > rest then |taken[0]| else rest
  }

  /**
   * The number of "_1" suffixes the resolver ends with when it starts from
   * `k` of them: the first count from `k` on whose candidate is free.
   */
  function FreeCount(name: string, taken: seq<string>, k: nat): (r: nat)
    ensures k <= r
    ensures Candidate(name, r) !in taken
    ensures forall j :: k <= j < r ==> Candidate(name, j) in taken
    decreases MaxLen(taken) + 1 - (|name| + 2 * k)
  {
    if Candidate(name, k) in taken then FreeCount(name, taken, k + 1) else k
  }

  /** The name a resolver starting from `name` settles on. */
  function FirstFree(name: string, taken: seq<string>): string {
    Candidate(name, FreeCount(name, taken, 0))
  }

  /** The resolver never starts from an empty name. */
  function KeyTarget(name: string): (r: string)
    ensures r != ""
    ensures name != "" ==> r == name
  {
    if name == "" then DefaultKeyName else name
  }

  /**
   * The resolution loop: start from the target (or "KEY"), append "_1"
   * while the name is taken. Each step lengthens the name by two, so the
   * loop stops once the name is longer than every taken one.
   */
  method ResolveName(target: string, taken: seq<string>) returns (r: string)
    ensures r == FirstFree(KeyTarget(target), taken)
    ensures r !in taken
  {
    var start := KeyTarget(target);
    r := start;
    ghost var k: nat := 0;
    ghost var goal := FreeCount(start, taken, 0);
    while r in taken
      invariant r == Candidate(start, k)
      invariant k <= goal
      invariant forall j :: 0 <= j < k ==> Candidate(start, j) in taken
      decreases MaxLen(taken) + 1 - |r|
    {
      r := r + "_1";
      k := k + 1;
    }
  }

  /** A name that is already taken always gets at least one "_1". */
  lemma {:induction false} TakenNameIsExtended(name: string, taken: seq<string>)
    requires name in taken
    ensures FreeCount(name, taken, 0) >= 1
    ensures exists k :: k >= 1 && FirstFree(name, taken) == Candidate(name, k)
  {
    var k := FreeCount(name, taken, 0);
    assert Candidate(name, 0) == name;
    assert FirstFree(name, taken) == Candidate(name, k);
  }

  /** A free name is kept as it is. */
  lemma FreeNameKept(name: string, taken: seq<string>)
    requires name !in taken
    ensures FirstFree(name, taken) == name
  {
  }

  /** Every candidate starts with the name it was built from. */
  lemma {:induction false} CandidatePrefix(name: string, k: nat)
    ensures Candidate(name, k)[..|name|] == name
  {
    if k > 0 {
      CandidatePrefix(name, k - 1);
      assert Candidate(name, k)[..|name|] == Candidate(name, k - 1)[..|name|];
    }
  }

  /** The key label of a list element: "[i]". */
  function IndexLabel(i: int): (r: string)
    ensures |r| >= 3 && r[0] == '[' && r[|r| - 1] == ']'
  {
    "[" + IntToStr(i) + "]"
  }

  /** Distinct positions get distinct labels. */
  lemma IndexLabelInjective(i: int, j: int)
    requires IndexLabel(i) == IndexLabel(j)
    ensures i == j
  {
    var a, b := IndexLabel(i), IndexLabel(j);
    assert IntToStr(i) == a[1..|a| - 1];
    assert IntToStr(j) == b[1..|b| - 1];
    IntTextRoundTrip(i);
    IntTextRoundTrip(j);
  }

  /** The entries a container contributes, list elements keyed by their position label. */
  function Parts(v: Json): (ps: seq<Entry>)
    ensures v.Obj? ==> ps == v.entries
    ensures v.Arr? ==> |ps| == |v.items| && forall i :: 0 <= i < |ps| ==> ps[i] == (IndexLabel(i), v.items[i])
    ensures IsScalar(v) ==> ps == []
  {
    match v
    case Obj(_, es) => es
    case Arr(_, xs) => seq(|xs|, i requires 0 <= i < |xs| => (IndexLabel(i), xs[i]))
    case _ => []
  }
}
