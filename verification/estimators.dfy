/** The cost estimators of the upload pipeline: audio duration from the
    size of the upload, token counts from text length, and the rate table.
    Costs are `real`s: the model states how costs relate to one another, not
    the floating-point values JavaScript computes. */
module Estimators {
  import opened Text

  /** The rate table (dollars). */
  const ElevenLabsPerMinute: real := 0.003
  const OpenAIInputPer1K: real := 0.0015
  const OpenAIOutputPer1K: real := 0.002

  /** The bitrate the estimate assumes: 16000 bytes per second. */
  const BytesPerSecond: real := 16000.0

  /** The shortest duration ever estimated, in minutes. */
  const MinimumMinutes: real := 0.1

  /** `estimateAudioDurationMinutes`: the duration at the assumed bitrate,
      but never less than the floor; the estimate is the least value that is
      at least both. */
  function EstimateAudioDurationMinutes(bytes: nat): (m: real)
    ensures m >= MinimumMinutes
    ensures m >= bytes as real / 960000.0
    ensures m == MinimumMinutes || m == bytes as real / 960000.0
  {
    var seconds := bytes as real / BytesPerSecond;
    var minutes := seconds / 60.0;
    if MinimumMinutes > minutes then MinimumMinutes else minutes
  }

  /** From 96000 bytes (six seconds) on, the floor no longer applies. */
  lemma DurationAboveFloor(bytes: nat)
    requires bytes >= 96000
    ensures EstimateAudioDurationMinutes(bytes) == bytes as real / 960000.0
  {
  }

  /** Below 96000 bytes every upload is billed as the floor. */
  lemma DurationBelowFloor(bytes: nat)
    requires bytes <= 96000
    ensures EstimateAudioDurationMinutes(bytes) == MinimumMinutes
  {
  }

  /** A larger upload never has a shorter estimate. */
  lemma DurationMonotone(a: nat, b: nat)
    requires a <= b
    ensures EstimateAudioDurationMinutes(a) <= EstimateAudioDurationMinutes(b)
  {
  }

  /** `estimateTokenCount`: `Math.ceil(text.length / 4)`, the least whole
      number of tokens that is at least a quarter of the length. */
  function EstimateTokenCount(text: string): (n: nat)
    ensures n as real >= Utf16Length(text) as real / 4.0
    ensures (n as real) - 1.0 < Utf16Length(text) as real / 4.0
  {
    (Utf16Length(text) + 3) / 4
  }

  /** No tokens for the empty string, and for text of the Basic Multilingual
      Plane the count is `(|text| + 3) / 4`. */
  lemma TokenCountOfBmp(text: string)
    requires forall i :: 0 <= i < |text| ==> text[i] as int <= 0xFFFF
    ensures EstimateTokenCount(text) == (|text| + 3) / 4
    ensures text == [] ==> EstimateTokenCount(text) == 0
  {
    Utf16LengthOfBmp(text);
  }

  /** Estimating a concatenation never costs more than estimating its parts
      separately, and never less than estimating either part. */
  lemma TokenCountOfConcatenation(a: string, b: string)
    ensures EstimateTokenCount(a + b) <= EstimateTokenCount(a) + EstimateTokenCount(b)
    ensures EstimateTokenCount(a) <= EstimateTokenCount(a + b)
    ensures EstimateTokenCount(b) <= EstimateTokenCount(a + b)
  {
    Utf16LengthAppend(a, b);
  }

  /** The transcription cost of an estimated duration. */
  function TranscriptionCost(minutes: real): (c: real)
    requires minutes >= 0.0
    ensures c >= 0.0
    ensures minutes >= MinimumMinutes ==> c > 0.0
  {
    minutes * ElevenLabsPerMinute
  }

  /** The cost of one completion: input and output tokens priced per
      thousand at their own rates. */
  function CompletionCost(inputTokens: nat, outputTokens: nat): (c: real)
    ensures c >= 0.0
    ensures c == 0.0 <==> inputTokens == 0 && outputTokens == 0
  {
    (inputTokens as real / 1000.0 * OpenAIInputPer1K)
      + (outputTokens as real / 1000.0 * OpenAIOutputPer1K)
  }
}
