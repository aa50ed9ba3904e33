/** The token estimator and the truncation applied to the aggregated
    conversations before they are sent to the summarising model. */
module TokenBudget {

  /** Characters counted as one token by the estimator. */
  const CharsPerToken: nat := 3

  /** Input budget of the summary pipeline, in estimated tokens. */
  const SummaryMaxTokens: int := 6000

  /** Marker appended to truncated text. */
  const Ellipsis: string := "..."

  /** Estimated token count: the length divided by three, rounded down. */
  function EstimateTokens(text: string): (n: nat)
    ensures CharsPerToken * n <= |text| < CharsPerToken * n + CharsPerToken
  {
    |text| / CharsPerToken
  }

  /** Python's `s[:stop]`: a negative stop counts from the end, a stop past the end is clipped. */
  function SlicePrefix(s: string, stop: int): (r: string)
    ensures 0 <= stop <= |s| ==> r == s[..stop]
    ensures stop > |s| ==> r == s
    ensures stop < 0 ==> r == s[..if |s| + stop >= 0 then |s| + stop else 0]
  {
    if stop >= |s| then s
    else if stop >= 0 then s[..stop]
    else if |s| + stop >= 0 then s[..|s| + stop]
    else []
  }

  /** Text within budget is returned unchanged; otherwise it is cut to
      `maxTokens * 3 - 3` characters (Python slicing) and the ellipsis appended. */
  function Truncate(text: string, maxTokens: int): (r: string)
    ensures EstimateTokens(text) <= maxTokens ==> r == text
    ensures EstimateTokens(text) > maxTokens && maxTokens >= 1 ==>
      |r| == CharsPerToken * maxTokens &&
      r[..|r| - |Ellipsis|] == text[..|r| - |Ellipsis|] &&
      r[|r| - |Ellipsis|..] == Ellipsis
  {
    if EstimateTokens(text) <= maxTokens then text
    else SlicePrefix(text, maxTokens * CharsPerToken - |Ellipsis|) + Ellipsis
  }

  /** With a positive budget the truncated text is itself within budget. */
  lemma TruncateFitsBudget(text: string, maxTokens: int)
    requires maxTokens >= 1
    ensures EstimateTokens(Truncate(text, maxTokens)) <= maxTokens
  {
  }

  /** Truncating twice to the same positive budget is truncating once. */
  lemma TruncateIdempotent(text: string, maxTokens: int)
    requires maxTokens >= 1
    ensures Truncate(Truncate(text, maxTokens), maxTokens) == Truncate(text, maxTokens)
  {
    TruncateFitsBudget(text, maxTokens);
  }

  /** With a zero budget the stop is -3: Python drops the last three characters
      and the ellipsis takes their place, so the text keeps its length and
      stays over budget. */
  lemma TruncateZeroBudget(text: string)
    requires |text| >= CharsPerToken
    ensures Truncate(text, 0) == text[..|text| - 3] + Ellipsis
    ensures |Truncate(text, 0)| == |text| && EstimateTokens(Truncate(text, 0)) > 0
  {
  }

  /** The pipeline's budget: over-long input is cut to exactly 18000 characters. */
  lemma SummaryBudgetLength(text: string)
    requires EstimateTokens(text) > SummaryMaxTokens
    ensures |Truncate(text, SummaryMaxTokens)| == 18000
    ensures Truncate(text, SummaryMaxTokens) == text[..17997] + Ellipsis
  {
  }
}
