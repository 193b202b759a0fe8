/**
 * Extraction of registry information from a language-model reply: code fences
 * are removed, the first brace-balanced `{...}` span is cut out and decoded;
 * when that fails, a fallback record is built from regular-expression matches
 * on the PDF text. The decoder and the regular expressions are parameters.
 */
module ResponseParsing {
  import opened Strings
  import opened Records

  const JsonFence: string := "```json"
  const Fence: string := "```"

  /** A decoded JSON value (the result of `json.loads`). */
  type JsonValue

  datatype Span = Span(start: nat, end: nat)

  /** The fixed keys of the `areas` dictionary, in the order they are filled. */
  const AreaKeys: seq<string> := ["privativa_real", "privativa_acessoria", "uso_comum", "total_real", "equivalente_construcao", "vaga_garagem"]

  /** What `extract_matricula_info` returns: the decoded JSON, or the fallback record. */
  datatype Extraction =
    | Parsed(json: JsonValue)
    | Fallback(numeroMatricula: string, descricao: string, areas: map<string, string>, inscricao: string)

  // ----- Fence stripping -----

  /** `response.replace('```json', '').replace('```', '').strip()`. */
  function CleanResponse(response: string): string {
    Strip(ReplaceAll(ReplaceAll(response, JsonFence, ""), Fence, ""))
  }

  /**
   * Removing every fence from left to right leaves no fence: a fence in the
   * result would have to start with a kept backtick followed by two backticks
   * that the scan did not see as the start of a fence.
   */
  lemma {:induction false} FenceRemovalIsComplete(s: string)
    ensures !Contains(ReplaceAll(s, Fence, ""), Fence)
    decreases |s|
  {
    var r := ReplaceAll(s, Fence, "");
    if |s| < |Fence| {
      assert r == s;
    } else if s[..|Fence|] == Fence {
      FenceRemovalIsComplete(s[|Fence|..]);
      assert r == ReplaceAll(s[|Fence|..], Fence, "");
    } else {
      var t := ReplaceAll(s[1..], Fence, "");
      FenceRemovalIsComplete(s[1..]);
      assert r == [s[0]] + t;
      if i :| OccursAt(r, Fence, i) {
        if i > 0 {
          assert r[i..i + 3] == t[i - 1..i + 2];
          assert OccursAt(t, Fence, i - 1);
        }
      }
    }
  }

  /** The cleaned reply holds no fence and neither starts nor ends with whitespace. */
  lemma CleanResponseIsClean(response: string)
    ensures !Contains(CleanResponse(response), Fence)
    ensures var c := CleanResponse(response); c != [] ==> !IsSpace(c[0]) && !IsSpace(c[|c| - 1])
  {
    var x := ReplaceAll(ReplaceAll(response, JsonFence, ""), Fence, "");
    FenceRemovalIsComplete(ReplaceAll(response, JsonFence, ""));
    StripTrimsBothEnds(x);
    if Contains(CleanResponse(response), Fence) {
      ContainsInSlice(x, StripStart(x, 0, |x|), StripEnd(x, 0, |x|), Fence);
    }
  }

  // ----- The brace-matching span finder -----

  /** `{` opens, `}` closes, anything else leaves the depth alone. */
  function Delta(c: char): int {
    if c == '{' then 1 else if c == '}' then -1 else 0
  }

  /** Brace depth after scanning `s[a..b]` from depth 0. */
  function Depth(s: string, a: nat, b: nat): int
    requires a <= b <= |s|
    decreases b - a
  {
    if b == a then 0 else Depth(s, a, b - 1) + Delta(s[b - 1])
  }

  /** The depth is the number of `{` minus the number of `}`, counting every brace. */
  lemma {:induction false} DepthCountsBraces(s: string, a: nat, b: nat)
    requires a <= b <= |s|
    ensures Depth(s, a, b) == Count(s[a..b], '{') - Count(s[a..b], '}')
    decreases b - a
  {
    if b > a {
      DepthCountsBraces(s, a, b - 1);
      assert s[a..b][..b - a - 1] == s[a..b - 1];
    }
  }

  /** `s[a..b]` closes the brace at `a`: depth 0 at `b` and above 0 at every earlier cut. */
  ghost predicate Balanced(s: string, a: nat, b: nat) {
    && a < b <= |s|
    && Depth(s, a, b) == 0
    && forall c :: a < c < b ==> Depth(s, a, c) > 0
  }

  /** The first cut after `c - 1` at which the depth from `a` is 0, if any. */
  function FirstClose(s: string, a: nat, c: nat): (r: Option<nat>)
    requires a < c <= |s| + 1
    ensures r.Some? ==> c <= r.value <= |s|
    decreases |s| + 1 - c
  {
    if c > |s| then None
    else if Depth(s, a, c) == 0 then Some(c)
    else FirstClose(s, a, c + 1)
  }

  /** The span the scanner produces: from the first `{` to just after its matching `}`. */
  function JsonSpan(s: string): (r: Option<Span>)
    ensures r.Some? ==> r.value.start < r.value.end <= |s|
  {
    var a := FindChar(s, '{');
    if a == -1 then None
    else match FirstClose(s, a, a + 1)
      case None => None
      case Some(b) => Some(Span(a, b))
  }

  lemma {:induction false} FirstCloseFinds(s: string, a: nat, c: nat)
    requires a < c <= |s| + 1
    ensures FirstClose(s, a, c).Some? ==>
      var b := FirstClose(s, a, c).value;
      c <= b <= |s| && Depth(s, a, b) == 0 && forall d :: c <= d < b ==> Depth(s, a, d) != 0
    ensures FirstClose(s, a, c).None? ==> forall d :: c <= d <= |s| ==> Depth(s, a, d) != 0
    decreases |s| + 1 - c
  {
    if c <= |s| && Depth(s, a, c) != 0 {
      FirstCloseFinds(s, a, c + 1);
    }
  }

  /** Depth moves by one per character, so from 1 it cannot reach a negative value without passing 0. */
  lemma {:induction false} DepthStaysPositive(s: string, a: nat, b: nat)
    requires a < b <= |s| && s[a] == '{'
    requires forall d :: a < d <= b ==> Depth(s, a, d) != 0
    ensures forall d :: a < d <= b ==> Depth(s, a, d) > 0
    decreases b - a
  {
    if b > a + 1 {
      DepthStaysPositive(s, a, b - 1);
      assert Depth(s, a, b - 1) > 0;
    }
  }

  /**
   * A produced span starts at the first `{` and is balanced: equal numbers of
   * `{` and `}`, every proper prefix with strictly more `{`, ending on `}`.
   * No span is produced exactly when there is no `{` or the depth never
   * returns to 0.
   */
  lemma JsonSpanIsFirstBalanced(s: string)
    ensures JsonSpan(s).Some? ==>
      var sp := JsonSpan(s).value;
      && sp.start as int == FindChar(s, '{')
      && Balanced(s, sp.start, sp.end)
      && s[sp.end - 1] == '}'
      && Count(s[sp.start..sp.end], '{') == Count(s[sp.start..sp.end], '}')
    ensures JsonSpan(s).None? <==>
      FindChar(s, '{') == -1 || forall d :: FindChar(s, '{') < d <= |s| ==> Depth(s, FindChar(s, '{'), d) > 0
  {
    var a := FindChar(s, '{');
    if a != -1 {
      FirstCloseFinds(s, a, a + 1);
      match FirstClose(s, a, a + 1)
      case None =>
        DepthStaysPositive(s, a, |s|);
      case Some(b) =>
        if b > a + 1 {
          DepthStaysPositive(s, a, b - 1);
        }
        assert Depth(s, a, b) == Depth(s, a, b - 1) + Delta(s[b - 1]);
        DepthCountsBraces(s, a, b);
    }
  }

  /** At most one end closes a given start. */
  lemma BalancedEndIsUnique(s: string, a: nat, b1: nat, b2: nat)
    requires Balanced(s, a, b1) && Balanced(s, a, b2)
    ensures b1 == b2
  {
  }

  /** The scanner does not know about strings: a `}` inside quotes closes the object. */
  lemma QuotedBraceCloses()
    ensures JsonSpan("{\"k\": \"}\"}") == Some(Span(0, 8))
  {
    var s := "{\"k\": \"}\"}";
    assert Depth(s, 0, 1) == 1;
    assert Depth(s, 0, 7) == 1;
    assert Depth(s, 0, 8) == 0;
  }

  /**
   * The scan of lines 56-72: depth counter from the first `{`, stopping at the
   * first `}` that brings it back to 0; a span only when the end moved.
   */
  method FindJsonSpan(s: string) returns (span: Option<Span>)
    ensures span == JsonSpan(s)
  {
    var start := FindChar(s, '{');
    if start == -1 {
      return None;
    }
    var depth := 0;
    var end := start;
    var i := start;
    while i < |s|
      invariant start <= i <= |s| && end == start
      invariant depth == Depth(s, start, i)
      invariant i > start ==> depth > 0
      invariant FirstClose(s, start, start + 1) == FirstClose(s, start, i + 1)
    {
      if s[i] == '{' {
        depth := depth + 1;
      } else if s[i] == '}' {
        depth := depth - 1;
        if depth == 0 {
          end := i + 1;
          break;
        }
      }
      i := i + 1;
    }
    if end > start {
      span := Some(Span(start, end));
    } else {
      span := None;
    }
  }

  // ----- The fallback record -----

  /** `pdf_text.strip().replace('\n', ' ')`. */
  function FlattenDescription(pdfText: string): (d: string)
    ensures '\n' !in d && |d| == |Strip(pdfText)|
  {
    ReplaceCharRemoves(Strip(pdfText), '\n', ' ');
    ReplaceAll(Strip(pdfText), "\n", " ")
  }

  /** `match.group(1) if match else ""`. */
  function GroupOrEmpty(m: Option<string>): string {
    if m.Some? then m.value else ""
  }

  /**
   * `_extract_matricula`: the patterns are tried in order and the first that
   * matches gives the result; `matches[k]` is pattern `k`'s capture group.
   */
  method FirstMatch(matches: seq<Option<string>>) returns (r: string)
    ensures (forall k :: 0 <= k < |matches| ==> matches[k].None?) ==> r == ""
    ensures forall k :: 0 <= k < |matches| && matches[k].Some? && (forall j :: 0 <= j < k ==> matches[j].None?) ==>
              r == matches[k].value
  {
    var k := 0;
    while k < |matches|
      invariant 0 <= k <= |matches|
      invariant forall j :: 0 <= j < k ==> matches[j].None?
    {
      if matches[k].Some? {
        return matches[k].value;
      }
      k := k + 1;
    }
    return "";
  }

  /**
   * `_extract_areas`: one entry per fixed key, holding the key's capture
   * group or "" when its pattern does not match; `areaMatch(key, text)`
   * stands for the key's regular expression.
   */
  method ExtractAreas(text: string, areaMatch: (string, string) -> Option<string>) returns (areas: map<string, string>)
    ensures areas.Keys == set k | k in AreaKeys
    ensures forall k :: k in AreaKeys ==> areas[k] == GroupOrEmpty(areaMatch(k, text))
  {
    areas := map[];
    var i := 0;
    while i < |AreaKeys|
      invariant 0 <= i <= |AreaKeys|
      invariant areas.Keys == set k | k in AreaKeys[..i]
      invariant forall k :: k in AreaKeys[..i] ==> areas[k] == GroupOrEmpty(areaMatch(k, text))
    {
      var key := AreaKeys[i];
      var m := areaMatch(key, text);
      if m.Some? {
        areas := areas[key := m.value];
      } else {
        areas := areas[key := ""];
      }
      assert AreaKeys[..i + 1] == AreaKeys[..i] + [key];
      i := i + 1;
    }
    assert AreaKeys[..i] == AreaKeys;
  }

  /**
   * `extract_matricula_info` after the model's reply is in hand: the decoded
   * span when there is one and `decode` accepts it, otherwise the fallback
   * record built from the PDF text.
   */
  method ExtractMatriculaInfo(response: string, pdfText: string, decode: string -> Option<JsonValue>,
                              matriculaMatches: seq<Option<string>>, inscricaoMatch: Option<string>,
                              areaMatch: (string, string) -> Option<string>) returns (info: Extraction)
    ensures var c := CleanResponse(response);
            info.Parsed? <==> JsonSpan(c).Some? && decode(c[JsonSpan(c).value.start..JsonSpan(c).value.end]).Some?
    ensures info.Parsed? ==>
              var c := CleanResponse(response);
              info.json == decode(c[JsonSpan(c).value.start..JsonSpan(c).value.end]).value
    ensures info.Fallback? ==>
              && info.descricao == FlattenDescription(pdfText)
              && '\n' !in info.descricao
              && info.inscricao == GroupOrEmpty(inscricaoMatch)
              && info.areas.Keys == set k | k in AreaKeys
              && (forall k :: k in AreaKeys ==> k in info.areas && info.areas[k] == GroupOrEmpty(areaMatch(k, pdfText)))
    ensures info.Fallback? && (forall k :: 0 <= k < |matriculaMatches| ==> matriculaMatches[k].None?) ==>
              info.numeroMatricula == ""
    ensures info.Fallback? ==>
              forall k :: 0 <= k < |matriculaMatches| && matriculaMatches[k].Some? &&
                          (forall j :: 0 <= j < k ==> matriculaMatches[j].None?) ==>
                info.numeroMatricula == matriculaMatches[k].value
  {
    var clean := CleanResponse(response);
    var span := FindJsonSpan(clean);
    JsonSpanIsFirstBalanced(clean);
    if span.Some? {
      var parsed := decode(clean[span.value.start..span.value.end]);
      if parsed.Some? {
        return Parsed(parsed.value);
      }
    }
    var numero := FirstMatch(matriculaMatches);
    var inscricao := GroupOrEmpty(inscricaoMatch);
    var areas := ExtractAreas(pdfText, areaMatch);
    var descricao := FlattenDescription(pdfText);
    info := Fallback(numero, descricao, areas, inscricao);
  }
}
