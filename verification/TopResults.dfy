/** The session scan keeps only a batch of its largest tool results and sorts and cuts it now and then. */
module TopResults {
  import opened StableSort

  datatype ToolResult = ToolResult(tool: string, summary: string, toks: int)

  const THRESHOLD := 2000
  const BATCH := 24
  const KEEP := 12

  function Size(r: ToolResult): int {
    r.toks
  }

  function Large(results: seq<ToolResult>): seq<ToolResult> {
    if results == [] then []
    else
      var n := |results| - 1;
      Large(results[..n]) + if results[n].toks > THRESHOLD then [results[n]] else []
  }

  /** The reported list is the first twelve of a stable descending sort of every large result. */
  function Top(results: seq<ToolResult>): seq<ToolResult> {
    Take(KEEP, SortDesc(Large(results), Size))
  }

  /** The results of this size, in order. */
  function OfSize(results: seq<ToolResult>, k: int): seq<ToolResult> {
    if results == [] then [] else (if results[0].toks == k then [results[0]] else []) + OfSize(results[1..], k)
  }

  /** All results of more than 2000 tokens, from the largest on, equal ones in the order of the stream. */
  ghost predicate IsRanking(s: seq<ToolResult>, results: seq<ToolResult>) {
    && (forall i, j :: 0 <= i < j < |s| ==> s[i].toks >= s[j].toks)
    && (forall k :: OfSize(s, k) == if k > 2000 then OfSize(results, k) else [])
  }

  lemma {:induction false} OfSizeIsKey(results: seq<ToolResult>, k: int)
    ensures OfSize(results, k) == OfKey(results, Size, k)
  {
    if results != [] {
      OfSizeIsKey(results[1..], k);
    }
  }

  lemma {:induction false} LargeOfSize(results: seq<ToolResult>, k: int)
    ensures OfKey(Large(results), Size, k) == if k > 2000 then OfKey(results, Size, k) else []
    decreases |results|
  {
    if results != [] {
      var n := |results| - 1;
      var last := if results[n].toks > THRESHOLD then [results[n]] else [];
      LargeOfSize(results[..n], k);
      OfKeyConcat(Large(results[..n]), last, Size, k);
      OfKeyConcat(results[..n], [results[n]], Size, k);
      OneOfKey(results[n], k);
      assert results == results[..n] + [results[n]];
    }
  }

  lemma {:induction false} OneOfKey(r: ToolResult, k: int)
    ensures OfKey([r], Size, k) == (if r.toks == k then [r] else []) && OfKey([], Size, k) == []
  {
    assert [r][1..] == [];
  }

  lemma {:induction false} SortedIsRanking(results: seq<ToolResult>)
    ensures IsRanking(SortDesc(Large(results), Size), results)
  {
    var s := SortDesc(Large(results), Size);
    SortIsDescending(Large(results), Size);
    forall i, j | 0 <= i < j < |s| ensures s[i].toks >= s[j].toks {
      assert Size(s[i]) >= Size(s[j]);
    }
    forall k ensures OfSize(s, k) == if k > 2000 then OfSize(results, k) else [] {
      OfSizeIsKey(s, k);
      OfSizeIsKey(results, k);
      SortIsStable(Large(results), Size, k);
      LargeOfSize(results, k);
    }
  }

  /** The batch stands for all results seen: its own first twelve are theirs. */
  ghost predicate StandsFor(top: seq<ToolResult>, results: seq<ToolResult>) {
    |top| <= BATCH && Take(KEEP, SortDesc(top, Size)) == Top(results)
  }

  /** Appending a large result keeps that up. */
  lemma {:induction false} PushStandsFor(top: seq<ToolResult>, results: seq<ToolResult>, r: ToolResult)
    requires StandsFor(top, results) && r.toks > THRESHOLD
    ensures Take(KEEP, SortDesc(top + [r], Size)) == Top(results + [r])
  {
    CutEarly(KEEP, top, [r], Size);
    CutEarly(KEEP, Large(results), [r], Size);
    assert (results + [r])[..|results|] == results;
  }

  /** So does cutting it down. */
  lemma {:induction false} CutStandsFor(top: seq<ToolResult>)
    ensures Take(KEEP, SortDesc(Take(KEEP, SortDesc(top, Size)), Size)) == Take(KEEP, SortDesc(top, Size))
  {
    CutEarly(KEEP, top, [], Size);
    assert top + [] == top && Take(KEEP, SortDesc(top, Size)) + [] == Take(KEEP, SortDesc(top, Size));
  }

  /** Cutting the batch along the way is invisible in the result, for any stream; the batch never exceeds 24. */
  method CollectTop(results: seq<ToolResult>) returns (top: seq<ToolResult>)
    ensures exists s :: IsRanking(s, results) && top == if |s| < 12 then s else s[..12]
  {
    top := [];
    for i := 0 to |results|
      invariant StandsFor(top, results[..i])
    {
      assert results[..i + 1] == results[..i] + [results[i]] && results[..i + 1][..i] == results[..i];
      if results[i].toks > THRESHOLD {
        PushStandsFor(top, results[..i], results[i]);
        top := top + [results[i]];
        if |top| > BATCH {
          CutStandsFor(top);
          SortKeepsLength(top, Size);
          top := SortDesc(top, Size);
          top := top[..KEEP];
        }
      } else {
        assert Large(results[..i + 1]) == Large(results[..i]) + [] == Large(results[..i]);
      }
    }
    assert results[..|results|] == results;
    top := SortDesc(top, Size);
    top := top[..if |top| < KEEP then |top| else KEEP];
    SortedIsRanking(results);
  }
}
