// The pure post-processing that main.py applies to a finished simulation:
// the running totals of the history, which main.py scales to percentages for
// its plot, and the file name the plot is saved under.
module PostProcess {
  import opened Rumor
  import opened WorldLaws

  /** prefix_sum in plot_info: entry i is the sum of the first i + 1 history entries. */
  function PrefixSum(info: seq<int>): (r: seq<int>)
    ensures |r| == |info|
  {
    seq(|info|, i requires 0 <= i < |info| => Sum(info[..i + 1]))
  }

  /** The running total starts at the first entry. */
  lemma PrefixSumHead(info: seq<int>)
    requires |info| > 0
    ensures PrefixSum(info)[0] == info[0]
  {
    var head := info[..1];
    assert head[..0] == [] && head[0] == info[0];
    assert Sum(head) == Sum(head[..0]) + head[0];
  }

  /** Each running total is the previous one plus the current entry. */
  lemma PrefixSumStep(info: seq<int>, i: int)
    requires 1 <= i < |info|
    ensures PrefixSum(info)[i] == PrefixSum(info)[i - 1] + info[i]
  {
    assert info[..i + 1][..i] == info[..i];
  }

  /** The last running total is the sum of the whole history. */
  lemma PrefixSumLast(info: seq<int>)
    requires |info| > 0
    ensures PrefixSum(info)[|info| - 1] == Sum(info)
  {
    assert info[..|info|] == info;
  }

  /** With non-negative entries, a sum over a prefix lies between 0 and the sum over the whole. */
  lemma {:induction false} SumPrefixBounded(s: seq<int>, i: int)
    requires 0 <= i <= |s| && forall g :: 0 <= g < |s| ==> s[g] >= 0
    ensures 0 <= Sum(s[..i]) <= Sum(s)
    decreases |s|
  {
    if |s| > 0 {
      var n := |s| - 1;
      if i == |s| {
        assert s[..i] == s;
        SumPrefixBounded(s[..n], n);
        assert s[..n][..n] == s[..n];
      } else {
        SumPrefixBounded(s[..n], i);
        assert s[..n][..i] == s[..i];
      }
    }
  }

  /**
   * With non-negative entries, as update produces them, the running totals
   * never decrease and stay between 0 and the total.
   */
  lemma PrefixSumMonotone(info: seq<int>)
    requires forall g :: 0 <= g < |info| ==> info[g] >= 0
    ensures forall i, j :: 0 <= i <= j < |info| ==> PrefixSum(info)[i] <= PrefixSum(info)[j]
    ensures forall i :: 0 <= i < |info| ==> 0 <= PrefixSum(info)[i] <= Sum(info)
  {
    var r := PrefixSum(info);
    forall i, j | 0 <= i <= j < |info|
      ensures r[i] <= r[j]
    {
      var pre := info[..j + 1];
      assert forall g :: 0 <= g < |pre| ==> pre[g] >= 0;
      SumPrefixBounded(pre, i + 1);
      assert pre[..i + 1] == info[..i + 1];
    }
    forall i | 0 <= i < |info|
      ensures 0 <= r[i] <= Sum(info)
    {
      SumPrefixBounded(info, i + 1);
    }
  }

  /**
   * For a full run, prefix_sum has one running total per generation and its
   * last running total is the number of persons infected during the run,
   * infected_persons - 1.
   */
  lemma HistoryTotal(w: World, L: int, roll: nat -> int, cursor: nat, r: World)
    requires WorldInv(w) && w.generation == 0 && r == Run(w, L, roll, cursor)
    ensures |PrefixSum(r.info)| == 251
    ensures PrefixSum(r.info)[250] == r.infectedPersons - 1
  {
    RunFromStart(w, L, roll, cursor, r);
    PrefixSumLast(r.info);
  }

  /** path in plot_info: the simulation name with every ':' replaced by '-'. */
  function Path(name: string): (p: string)
    ensures |p| == |name|
    ensures forall i :: 0 <= i < |name| ==> p[i] == if name[i] == ':' then '-' else name[i]
    ensures ':' !in p
  {
    if name == [] then [] else [if name[0] == ':' then '-' else name[0]] + Path(name[1..])
  }

  /** Rewriting a name twice changes nothing more, and a name without ':' is kept as it is. */
  lemma PathIdempotent(name: string)
    ensures Path(Path(name)) == Path(name)
    ensures Path(name) == name <==> ':' !in name
  {
    if ':' in name {
      var i :| 0 <= i < |name| && name[i] == ':';
      assert Path(name)[i] == '-';
    }
  }
}
