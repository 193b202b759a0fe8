/**
 * Assembly of the context string handed to the language model: search results
 * become "[filename] chunk" blocks, joined by blank lines, under a budget that
 * counts chunk-text characters only.
 */
module Context {
  import opened Records

  /** Returned instead of a context when the search found nothing. */
  const NoContext: string := "Nenhum documento relevante encontrado."
  const Separator: string := "\n\n"
  const Ellipsis: string := "..."
  /** A truncated block is added only when more than this many characters remain. */
  const Significant: int := 100
  /** `get_context_for_query`'s default budget. */
  const DefaultMaxContext: int := 2000
  /** `get_context_for_query` asks the search for this many results. */
  const ContextTopK: int := 3

  function Block(filename: string, text: string): (b: string)
    ensures |b| == |filename| + |text| + 3 && b[0] == '['
  {
    "[" + filename + "] " + text
  }

  /** Python's `sep.join(parts)`. */
  function Join(parts: seq<string>, sep: string): string
    decreases |parts|
  {
    if |parts| == 0 then ""
    else if |parts| == 1 then parts[0]
    else parts[0] + sep + Join(parts[1..], sep)
  }

  /** Total length of the chunk texts of `rs`. */
  function TotalLen(rs: seq<SearchResult>): nat
    decreases |rs|
  {
    if rs == [] then 0 else |rs[0].chunkText| + TotalLen(rs[1..])
  }

  /** The blocks built from `rs` when `used` chunk characters are already taken. */
  function Parts(rs: seq<SearchResult>, maxLen: int, used: int): seq<string>
    decreases |rs|
  {
    if rs == [] then []
    else
      var c := rs[0].chunkText;
      if used + |c| <= maxLen then [Block(rs[0].filename, c)] + Parts(rs[1..], maxLen, used + |c|)
      else if maxLen - used > Significant then [Block(rs[0].filename, c[..maxLen - used] + Ellipsis)]
      else []
  }

  /** How many leading results fit whole into the budget. */
  function Fitted(rs: seq<SearchResult>, maxLen: int, used: int): (k: nat)
    ensures k <= |rs|
    decreases |rs|
  {
    if rs == [] then 0
    else if used + |rs[0].chunkText| <= maxLen then 1 + Fitted(rs[1..], maxLen, used + |rs[0].chunkText|)
    else 0
  }

  /** The context for the results of a search, under a budget of `maxLen` chunk characters. */
  function ContextFor(rs: seq<SearchResult>, maxLen: int): string {
    if rs == [] then NoContext else Join(Parts(rs, maxLen, 0), Separator)
  }

  /** The chunk characters taken by the results that fit whole. */
  function UsedAfterFit(rs: seq<SearchResult>, maxLen: int, used: int): int {
    used + TotalLen(rs[..Fitted(rs, maxLen, used)])
  }

  /**
   * The results that fit whole are the longest prefix whose chunk texts stay
   * within the budget.
   */
  lemma {:induction false} FittedIsLongestPrefix(rs: seq<SearchResult>, maxLen: int, used: int)
    ensures var k := Fitted(rs, maxLen, used);
            && (k > 0 ==> UsedAfterFit(rs, maxLen, used) <= maxLen)
            && (k < |rs| ==> UsedAfterFit(rs, maxLen, used) + |rs[k].chunkText| > maxLen)
    decreases |rs|
  {
    if rs != [] {
      var c := rs[0].chunkText;
      if used + |c| <= maxLen {
        var tail := rs[1..];
        FittedIsLongestPrefix(tail, maxLen, used + |c|);
        var k := Fitted(rs, maxLen, used);
        assert rs[..k][1..] == tail[..k - 1];
        assert UsedAfterFit(rs, maxLen, used) == UsedAfterFit(tail, maxLen, used + |c|);
        if k < |rs| {
          assert rs[k] == tail[k - 1];
        }
      } else {
        assert rs[..0] == [];
      }
    }
  }

  /**
   * The blocks are one "[filename] chunk" per result that fits whole, in
   * result order; then, only when another result remains and more than 100
   * characters of budget are left, that result's chunk cut to the remaining
   * budget and followed by "...".
   */
  lemma {:induction false} PartsShape(rs: seq<SearchResult>, maxLen: int, used: int)
    ensures var k := Fitted(rs, maxLen, used);
            var left := maxLen - UsedAfterFit(rs, maxLen, used);
            var ps := Parts(rs, maxLen, used);
            && (|ps| == k || |ps| == k + 1)
            && (forall i :: 0 <= i < k ==> ps[i] == Block(rs[i].filename, rs[i].chunkText))
            && (|ps| == k + 1 <==> k < |rs| && left > Significant)
            && (|ps| == k + 1 ==>
                  left < |rs[k].chunkText| && ps[k] == Block(rs[k].filename, rs[k].chunkText[..left] + Ellipsis))
    decreases |rs|
  {
    if rs != [] {
      var c := rs[0].chunkText;
      if used + |c| <= maxLen {
        var tail := rs[1..];
        PartsShape(tail, maxLen, used + |c|);
        var k := Fitted(rs, maxLen, used);
        var ps := Parts(rs, maxLen, used);
        var pt := Parts(tail, maxLen, used + |c|);
        assert ps == [Block(rs[0].filename, c)] + pt;
        assert rs[..k][1..] == tail[..k - 1];
        assert UsedAfterFit(rs, maxLen, used) == UsedAfterFit(tail, maxLen, used + |c|);
        forall i | 1 <= i < k
          ensures ps[i] == Block(rs[i].filename, rs[i].chunkText)
        {
          assert ps[i] == pt[i - 1] && rs[i] == tail[i - 1];
        }
        if k < |rs| {
          assert rs[k] == tail[k - 1];
        }
      } else {
        assert rs[..0] == [];
      }
    }
  }

  /** A joined context is empty exactly when there are no blocks, and otherwise starts with the first block. */
  lemma {:induction false} JoinHead(parts: seq<string>, sep: string)
    requires |parts| > 0 && |parts[0]| > 0
    ensures |Join(parts, sep)| > 0 && Join(parts, sep)[0] == parts[0][0]
  {
    if |parts| > 1 {
      assert Join(parts, sep) == parts[0] + (sep + Join(parts[1..], sep));
    }
  }

  /** The sentinel comes back exactly when the search returned nothing. */
  lemma ContextIsSentinelIffNoResults(rs: seq<SearchResult>, maxLen: int)
    ensures ContextFor(rs, maxLen) == NoContext <==> rs == []
  {
    if rs != [] {
      var ps := Parts(rs, maxLen, 0);
      if |ps| > 0 {
        assert ps[0][0] == '[' by {
          if rs[0].chunkText == [] || 0 + |rs[0].chunkText| <= maxLen {
          } else {
          }
        }
        JoinHead(ps, Separator);
        assert ContextFor(rs, maxLen)[0] != NoContext[0];
      }
    }
  }

  /** A single result that fits the budget gives exactly its own block. */
  lemma SingleResultContext(r: SearchResult, maxLen: int)
    requires |r.chunkText| <= maxLen
    ensures ContextFor([r], maxLen) == "[" + r.filename + "] " + r.chunkText
  {
    assert Parts([r], maxLen, 0) == [Block(r.filename, r.chunkText)] + Parts([r][1..], maxLen, |r.chunkText|);
  }

  /**
   * The budget bounds chunk text only: "[filename] " prefixes, separators and
   * the ellipsis are not counted, so the context can be longer than `maxLen`.
   */
  lemma ContextCanExceedBudget(s: Score, info: Info)
    ensures var rs := [SearchResult("abc", s, "f", 3, info)];
            ContextFor(rs, 3) == "[f] abc" && |ContextFor(rs, 3)| > 3
  {
    var rs := [SearchResult("abc", s, "f", 3, info)];
    assert Parts(rs, 3, 0) == [Block("f", "abc")] + Parts(rs[1..], 3, 3);
  }

  /**
   * `get_context_for_query`'s accumulator loop over the search results; the
   * running total `used` counts chunk characters and stays within the budget
   * once anything has been added.
   */
  method Assemble(results: seq<SearchResult>, maxLen: int) returns (context: string)
    ensures context == ContextFor(results, maxLen)
  {
    if results == [] {
      return NoContext;
    }
    var parts: seq<string> := [];
    var used := 0;
    var i := 0;
    while i < |results|
      invariant 0 <= i <= |results|
      invariant parts + Parts(results[i..], maxLen, used) == Parts(results, maxLen, 0)
    {
      var chunk := results[i].chunkText;
      assert results[i..][1..] == results[i + 1..];
      if used + |chunk| <= maxLen {
        assert Parts(results[i..], maxLen, used) == [Block(results[i].filename, chunk)] + Parts(results[i + 1..], maxLen, used + |chunk|);
        parts := parts + [Block(results[i].filename, chunk)];
        used := used + |chunk|;
      } else {
        var remaining := maxLen - used;
        assert Parts(results[i..], maxLen, used) ==
          if remaining > Significant then [Block(results[i].filename, chunk[..remaining] + Ellipsis)] else [];
        if remaining > Significant {
          parts := parts + [Block(results[i].filename, chunk[..remaining] + Ellipsis)];
        }
        assert parts == Parts(results, maxLen, 0);
        break;
      }
      i := i + 1;
    }
    assert parts == Parts(results, maxLen, 0);
    context := Join(parts, Separator);
  }
}
