/** The `/upload` handler as a pure function. Every collaborator the handler
    awaits (reading the uploaded file, the speech-to-text service, the two
    completions, the memo log and the two tables) is an `Oracle` field giving
    the outcome of that call; the handler yields the response it sends and
    the trace of calls and writes it made, in order. */
module Upload {
  import opened Outcomes
  import opened Text
  import opened Estimators
  import Language
  import opened Extraction

  /** `costTracking`, the request's accumulator and the cost-tracking row. */
  datatype CostTracking = CostTracking(
    elevenLabsCost: real,
    openaiCost: real,
    totalCost: real,
    audioSizeBytes: nat,
    estimatedDurationMinutes: real,
    transcriptionAttempts: nat,
    translationUsed: bool,
    error: Option<string>)

  const InitialCostTracking := CostTracking(0.0, 0.0, 0.0, 0, 0.0, 0, false, None)

  /** The error the cost record carries when translation fails: the message
      `translateToEnglish` rethrows is always the same. */
  const TranslationFailedMessage := "Translation failed: Translation service unavailable"

  /** What the translation completion did: replied with content, or raised
      (including a reply without content). */
  datatype TranslationReply = Translated(content: string) | TranslationFailed

  /** The reading of the word list and accent class `isSpanish` runs with
      (`Language.AsStored` for the file's characters as they stand,
      `Language.Intended` for the Spanish they spell), and the outcomes of
      every call the handler can make, in the order it makes them. The
      English transcription calls are numbered in call order: the first is
      the one after a non-Spanish first result, or the fallback when the
      Spanish call raised; the second is the fallback after the first
      English call raised. */
  datatype Oracle = Oracle(
    lexicon: Language.Lexicon,
    audio: Outcome<nat>,
    spanishTranscription: Outcome<string>,
    firstEnglishTranscription: Outcome<string>,
    secondEnglishTranscription: Outcome<string>,
    translation: TranslationReply,
    extraction: ExtractionCall,
    memo: Outcome<()>,
    purchaseOrder: Outcome<nat>,
    cost: Outcome<()>,
    failureCost: Outcome<()>)

  datatype LanguageCode = Es | En

  /** The purchase-order row the handler inserts. */
  datatype PurchaseOrderRow = PurchaseOrderRow(fields: PurchaseOrderFields, rawTranscription: string)

  /** One call or write the handler made and whether it succeeded. */
  datatype Effect =
    | SttCall(language: LanguageCode, ok: bool)
    | TranslateCall(ok: bool)
    | ExtractCall(ok: bool)
    | MemoAppend(text: string, ok: bool)
    | PurchaseOrderInsert(row: PurchaseOrderRow, ok: bool)
    | CostInsert(record: CostTracking, ok: bool)

  /** The `costTracking` part of the success response (before `toFixed`). */
  datatype CostSummary = CostSummary(elevenLabsCost: real, openaiCost: real, totalCost: real)

  /** The body of the 200 response. */
  datatype UploadBody = UploadBody(
    transcription: string,
    finalText: string,
    wasSpanish: bool,
    wasTranslated: bool,
    extractedData: PurchaseOrderFields,
    purchaseOrderId: nat,
    costTracking: CostSummary)

  /** The 200 response; the 500 response `{error: "Audio processing failed",
      details}`; or the handler's promise rejecting, with nothing sent by
      the handler itself, when the cost insert of the `catch` rejects. What
      the client then sees is up to the framework. */
  datatype Response = Processed(body: UploadBody) | ProcessingFailed(details: string) | HandlerRejected

  datatype Handled = Handled(response: Response, effects: seq<Effect>)

  // ---------------------------------------------------------------------
  // Counting the trace
  // ---------------------------------------------------------------------

  datatype Kind =
    | TranscriptionSucceeded
    | TranslationRequested
    | MemoWritten
    | PurchaseOrderWritten
    | CostInsertAttempted
    | CostRowWritten

  predicate IsKind(e: Effect, k: Kind)
  {
    match k
    case TranscriptionSucceeded => e.SttCall? && e.ok
    case TranslationRequested => e.TranslateCall?
    case MemoWritten => e.MemoAppend? && e.ok
    case PurchaseOrderWritten => e.PurchaseOrderInsert? && e.ok
    case CostInsertAttempted => e.CostInsert?
    case CostRowWritten => e.CostInsert? && e.ok
  }

  /** The number of effects of kind `k`. */
  function Count(effects: seq<Effect>, k: Kind): (n: nat)
    ensures n <= |effects|
    decreases |effects|
  {
    if |effects| == 0 then 0
    else (if IsKind(effects[0], k) then 1 else 0) + Count(effects[1..], k)
  }

  /** No effect of kind `k` exactly when the count is zero. */
  lemma {:induction false} CountZero(effects: seq<Effect>, k: Kind)
    ensures Count(effects, k) == 0 <==> forall i :: 0 <= i < |effects| ==> !IsKind(effects[i], k)
    decreases |effects|
  {
    if |effects| > 0 {
      CountZero(effects[1..], k);
      assert forall i :: 0 < i < |effects| ==> effects[i] == effects[1..][i - 1];
    }
  }

  lemma {:induction false} CountAppend(a: seq<Effect>, b: seq<Effect>, k: Kind)
    ensures Count(a + b, k) == Count(a, k) + Count(b, k)
    decreases |a|
  {
    if |a| == 0 {
      assert a + b == b;
    } else {
      assert (a + b)[0] == a[0];
      assert (a + b)[1..] == a[1..] + b;
      CountAppend(a[1..], b, k);
    }
  }

  lemma CountOne(e: Effect, k: Kind)
    ensures Count([e], k) == if IsKind(e, k) then 1 else 0
  {
    assert [e][1..] == [];
  }

  // ---------------------------------------------------------------------
  // Stage 1: audio size and the first estimate
  // ---------------------------------------------------------------------

  /** `costTracking` once the file has been read: its size, the duration
      estimate and the price of one transcription of that duration. */
  function Prepare(bytes: nat): (ct: CostTracking)
    ensures ct.elevenLabsCost > 0.0
  {
    var minutes := EstimateAudioDurationMinutes(bytes);
    InitialCostTracking.(
      audioSizeBytes := bytes,
      estimatedDurationMinutes := minutes,
      elevenLabsCost := TranscriptionCost(minutes))
  }

  // ---------------------------------------------------------------------
  // Stage 2: transcription with language fallback
  // ---------------------------------------------------------------------

  datatype Transcript = Transcript(text: string, isSpanishAudio: bool)

  /** The outcome of the transcription block: the transcript or the error
      that escapes it, the updated accumulator, and the calls made. */
  datatype Transcription = Transcription(result: Outcome<Transcript>, ct: CostTracking, calls: seq<Effect>)

  /** The order of the transcription calls: one to three calls, the
      Spanish-tuned call first and English calls after it, a third call only
      after the second raised. */
  predicate FallbackOrder(calls: seq<Effect>)
  {
    && 1 <= |calls| <= 3
    && calls[0].SttCall? && calls[0].language == Es
    && (forall i :: 1 <= i < |calls| ==> calls[i].SttCall? && calls[i].language == En)
    && (|calls| == 3 ==> calls[1] == SttCall(En, false))
  }

  /** `after` differs from `before` at most in the transcription fields:
      the attempt counter and the transcription cost. */
  predicate OnlyTranscriptionFields(before: CostTracking, after: CostTracking)
  {
    after == before.(transcriptionAttempts := after.transcriptionAttempts, elevenLabsCost := after.elevenLabsCost)
  }

  /** The calls after which the transcription cost is doubled: the Spanish
      call and then the English call both returned. */
  predicate DoubledCharge(calls: seq<Effect>)
  {
    |calls| == 2 && calls[0] == SttCall(Es, true) && calls[1] == SttCall(En, true)
  }

  /** The outcome of the transcription call whose result is kept, given the
      calls made: the Spanish call when it is the only one, otherwise the
      English call made last. */
  function AcceptedCall(o: Oracle, calls: seq<Effect>): Outcome<string>
  {
    if |calls| == 1 then o.spanishTranscription
    else if |calls| == 2 then o.firstEnglishTranscription
    else o.secondEnglishTranscription
  }

  /** The `catch` of the transcription block: one English call, whose error
      escapes; the attempt counter moves only when it returns. */
  function EnglishFallback(english: Outcome<string>, ct: CostTracking, before: seq<Effect>): (t: Transcription)
    ensures t.calls == before + [SttCall(En, english.Ok?)]
    ensures t.ct.transcriptionAttempts + Count(before, TranscriptionSucceeded)
         == ct.transcriptionAttempts + Count(t.calls, TranscriptionSucceeded)
    ensures t.ct == ct.(transcriptionAttempts := t.ct.transcriptionAttempts)
    ensures t.result.Ok? <==> english.Ok?
    ensures t.result.Ok? ==> t.result.value == Transcript(english.value, false)
  {
    CountAppend(before, [SttCall(En, english.Ok?)], TranscriptionSucceeded);
    CountOne(SttCall(En, english.Ok?), TranscriptionSucceeded);
    match english
    case Ok(text) => Transcription(Ok(Transcript(text, false)),
                                   ct.(transcriptionAttempts := ct.transcriptionAttempts + 1),
                                   before + [SttCall(En, true)])
    case Err(m) => Transcription(Err(m), ct, before + [SttCall(En, false)])
  }

  /** The `catch` of the transcription block entered because the English
      call after the Spanish one raised: a second English call decides. */
  function AfterEnglishFailure(o: Oracle, ct: CostTracking): (t: Transcription)
    ensures t.calls == [SttCall(Es, true), SttCall(En, false), SttCall(En, o.secondEnglishTranscription.Ok?)]
    ensures t.ct.transcriptionAttempts + 1 == ct.transcriptionAttempts + Count(t.calls, TranscriptionSucceeded)
    ensures t.ct == ct.(transcriptionAttempts := t.ct.transcriptionAttempts)
    ensures t.result.Ok? <==> o.secondEnglishTranscription.Ok?
    ensures t.result.Ok? ==> t.result.value == Transcript(o.secondEnglishTranscription.value, false)
  {
    CountOne(SttCall(Es, true), TranscriptionSucceeded);
    CountOne(SttCall(En, false), TranscriptionSucceeded);
    CountAppend([SttCall(Es, true)], [SttCall(En, false)], TranscriptionSucceeded);
    EnglishFallback(o.secondEnglishTranscription, ct, [SttCall(Es, true), SttCall(En, false)])
  }

  /** The `try` of the transcription block once the Spanish-tuned call has
      returned (and been counted in `ct`) and the heuristic has rejected it:
      an English call, which doubles the transcription cost when it returns
      and falls back to the `catch` when it raises. */
  function EnglishAfterSpanish(o: Oracle, ct: CostTracking): (t: Transcription)
    ensures FallbackOrder(t.calls) && 2 <= |t.calls| && t.calls[0] == SttCall(Es, true)
    ensures t.result.Ok? <==> t.calls[|t.calls| - 1].ok
    ensures t.ct.transcriptionAttempts + 1 == ct.transcriptionAttempts + Count(t.calls, TranscriptionSucceeded)
    ensures t.result.Ok? ==> !t.result.value.isSpanishAudio && Ok(t.result.value.text) == AcceptedCall(o, t.calls)
    ensures t.ct.elevenLabsCost == if DoubledCharge(t.calls) then 2.0 * ct.elevenLabsCost else ct.elevenLabsCost
    ensures OnlyTranscriptionFields(ct, t.ct)
  {
    CountOne(SttCall(Es, true), TranscriptionSucceeded);
    match o.firstEnglishTranscription
    case Ok(english) =>
      CountOne(SttCall(En, true), TranscriptionSucceeded);
      CountAppend([SttCall(Es, true)], [SttCall(En, true)], TranscriptionSucceeded);
      Transcription(Ok(Transcript(english, false)),
                    ct.(transcriptionAttempts := ct.transcriptionAttempts + 1,
                        elevenLabsCost := 2.0 * ct.elevenLabsCost),
                    [SttCall(Es, true), SttCall(En, true)])
    case Err(_) => AfterEnglishFailure(o, ct)
  }

  /** The `try` of the transcription block once the Spanish-tuned call has
      returned `spanish` (and been counted in `ct`) and the heuristic has
      judged it: kept when judged Spanish, otherwise the English call. */
  function AfterSpanishCall(o: Oracle, spanish: string, judgedSpanish: bool, ct: CostTracking): (t: Transcription)
    ensures FallbackOrder(t.calls) && t.calls[0] == SttCall(Es, true)
    ensures t.result.Ok? <==> t.calls[|t.calls| - 1].ok
    ensures t.ct.transcriptionAttempts + 1 == ct.transcriptionAttempts + Count(t.calls, TranscriptionSucceeded)
    ensures t.result.Ok? && t.result.value.isSpanishAudio <==> judgedSpanish
    ensures judgedSpanish ==> t.result == Ok(Transcript(spanish, true)) && t.calls == [SttCall(Es, true)]
    ensures t.result.Ok? && !judgedSpanish ==> Ok(t.result.value.text) == AcceptedCall(o, t.calls)
    ensures t.ct.elevenLabsCost == if DoubledCharge(t.calls) then 2.0 * ct.elevenLabsCost else ct.elevenLabsCost
    ensures OnlyTranscriptionFields(ct, t.ct)
  {
    if judgedSpanish then
      CountOne(SttCall(Es, true), TranscriptionSucceeded);
      Transcription(Ok(Transcript(spanish, true)), ct, [SttCall(Es, true)])
    else
      EnglishAfterSpanish(o, ct)
  }

  /** The `catch` of the transcription block entered because the
      Spanish-tuned call raised: the one English call decides. */
  function AfterSpanishFailure(o: Oracle, ct: CostTracking): (t: Transcription)
    ensures t.calls == [SttCall(Es, false), SttCall(En, o.firstEnglishTranscription.Ok?)]
    ensures t.ct.transcriptionAttempts == ct.transcriptionAttempts + Count(t.calls, TranscriptionSucceeded)
    ensures t.ct == ct.(transcriptionAttempts := t.ct.transcriptionAttempts)
    ensures t.result.Ok? <==> o.firstEnglishTranscription.Ok?
    ensures t.result.Ok? ==> t.result.value == Transcript(o.firstEnglishTranscription.value, false)
  {
    CountOne(SttCall(Es, false), TranscriptionSucceeded);
    EnglishFallback(o.firstEnglishTranscription, ct, [SttCall(Es, false)])
  }

  /** The transcription block. A Spanish-tuned call comes first; its result
      is kept when `isSpanish` accepts it. Otherwise an English call follows
      and the transcription cost is doubled. When the Spanish call raises, or
      the English call after it raises, the `catch` makes one English call,
      whose error escapes. The attempt counter counts the calls that
      returned. */
  function TranscribeAudio(o: Oracle, ct: CostTracking): (t: Transcription)
    ensures FallbackOrder(t.calls)
    ensures t.result.Ok? <==> t.calls[|t.calls| - 1].ok
    ensures t.ct.transcriptionAttempts == ct.transcriptionAttempts + Count(t.calls, TranscriptionSucceeded)
    ensures t.result.Ok? && t.result.value.isSpanishAudio <==>
      o.spanishTranscription.Ok? && Language.IsSpanish(o.lexicon, o.spanishTranscription.value)
    ensures t.result.Ok? ==> Ok(t.result.value.text) == AcceptedCall(o, t.calls)
    ensures t.ct.elevenLabsCost == if DoubledCharge(t.calls) then 2.0 * ct.elevenLabsCost else ct.elevenLabsCost
    ensures OnlyTranscriptionFields(ct, t.ct)
  {
    match o.spanishTranscription
    case Err(_) => AfterSpanishFailure(o, ct)
    case Ok(spanish) =>
      AfterSpanishCall(o, spanish, Language.IsSpanish(o.lexicon, spanish),
                       ct.(transcriptionAttempts := ct.transcriptionAttempts + 1))
  }

  // ---------------------------------------------------------------------
  // Stage 3: translation gate
  // ---------------------------------------------------------------------

  /** `isSpanishAudio && finalText.trim()`. */
  predicate TranslationGate(tr: Transcript)
  {
    tr.isSpanishAudio && Trim(tr.text) != []
  }

  /** The outcome of the translation block: the final text, the translated
      text (`null` unless translation succeeded), the accumulator and the
      calls made. */
  datatype Translation = Translation(
    finalText: string, translatedText: Option<string>, ct: CostTracking, calls: seq<Effect>)

  /** The translation block. Behind the gate, `translationUsed` is set before
      the call; success replaces the final text by the trimmed translation and
      prices both texts; failure keeps the original text and records the
      translation error. Outside the gate nothing happens. */
  function TranslateIfSpanish(reply: TranslationReply, tr: Transcript, ct: CostTracking): (t: Translation)
    ensures t.calls == (if TranslationGate(tr) then [TranslateCall(reply.Translated?)] else [])
    ensures t.ct.translationUsed <==> ct.translationUsed || TranslationGate(tr)
    ensures t.translatedText.Some? <==> TranslationGate(tr) && reply.Translated?
    ensures t.translatedText.Some? ==> t.finalText == t.translatedText.value == Trim(reply.content)
    ensures t.translatedText.None? ==> t.finalText == tr.text
    ensures t.ct.error == (if TranslationGate(tr) && reply.TranslationFailed? then Some(TranslationFailedMessage) else ct.error)
    ensures t.ct.openaiCost == ct.openaiCost +
      (if t.translatedText.Some? then CompletionCost(EstimateTokenCount(tr.text), EstimateTokenCount(t.finalText)) else 0.0)
    ensures t.ct == ct.(translationUsed := t.ct.translationUsed, error := t.ct.error, openaiCost := t.ct.openaiCost)
  {
    if TranslationGate(tr) then
      var used := ct.(translationUsed := true);
      var inputTokens := EstimateTokenCount(tr.text);
      match reply
      case Translated(content) =>
        var translated := Trim(content);
        var outputTokens := EstimateTokenCount(translated);
        Translation(translated, Some(translated),
                    used.(openaiCost := used.openaiCost + CompletionCost(inputTokens, outputTokens)),
                    [TranslateCall(true)])
      case TranslationFailed =>
        Translation(tr.text, None, used.(error := Some(TranslationFailedMessage)), [TranslateCall(false)])
    else
      Translation(tr.text, None, ct, [])
  }

  // ---------------------------------------------------------------------
  // Stage 4 and the catch: persistence and the failure record
  // ---------------------------------------------------------------------

  /** A cost record written from the accumulator `ct`: every field but the
      total and the error message is the accumulator's. */
  predicate RecordOf(ct: CostTracking, rec: CostTracking)
  {
    rec == ct.(totalCost := rec.totalCost, error := rec.error)
  }

  /** 1 when `e` is of kind `k`, else 0. */
  function Tally(e: Effect, k: Kind): nat
  {
    if IsKind(e, k) then 1 else 0
  }

  lemma CountTwo(a: Effect, b: Effect, k: Kind)
    ensures Count([a, b], k) == Tally(a, k) + Tally(b, k)
  {
    assert [a, b] == [a] + [b];
    CountAppend([a], [b], k);
    CountOne(a, k);
    CountOne(b, k);
  }

  lemma CountThree(a: Effect, b: Effect, c: Effect, k: Kind)
    ensures Count([a, b, c], k) == Tally(a, k) + Tally(b, k) + Tally(c, k)
  {
    assert [a, b, c] == [a, b] + [c];
    CountAppend([a, b], [c], k);
    CountTwo(a, b, k);
    CountOne(c, k);
  }

  lemma CountFour(a: Effect, b: Effect, c: Effect, d: Effect, k: Kind)
    ensures Count([a, b, c, d], k) == Tally(a, k) + Tally(b, k) + Tally(c, k) + Tally(d, k)
  {
    assert [a, b, c, d] == [a, b, c] + [d];
    CountAppend([a, b, c], [d], k);
    CountThree(a, b, c, k);
    CountOne(d, k);
  }

  /** The cost insert of the handler's `catch`: the error message and the
      total cost overwrite the accumulator's before the record is inserted. */
  function CatchRecord(o: Oracle, msg: string, ct: CostTracking): (e: Effect)
    ensures e.CostInsert? && e.ok == o.failureCost.Ok?
    ensures e.record.totalCost == e.record.elevenLabsCost == ct.elevenLabsCost
    ensures e.record.error == Some(msg)
    ensures RecordOf(ct, e.record)
  {
    CostInsert(ct.(error := Some(msg), totalCost := ct.elevenLabsCost), o.failureCost.Ok?)
  }

  /** What the `catch` sends: the 500 response once its cost insert
      resolves; when that insert rejects, the handler rejects with it. */
  function CatchResponse(o: Oracle, msg: string): Response
  {
    if o.failureCost.Ok? then ProcessingFailed(msg) else HandlerRejected
  }

  /** The `catch` entered before any write: only its cost insert is in
      `h.effects`. */
  function Fail(o: Oracle, msg: string, ct: CostTracking): (h: Handled)
    ensures h.effects == [CatchRecord(o, msg, ct)]
    ensures h.response.Processed? == false
    ensures h.response.HandlerRejected? <==> !h.effects[0].ok
    ensures h.response.ProcessingFailed? ==> h.response.details == msg
  {
    Handled(CatchResponse(o, msg), [CatchRecord(o, msg, ct)])
  }

  /** The 200 body: the transcript, the final text, the two language flags,
      the extracted fields, the id of the purchase-order row and the costs. */
  function Body(o: Oracle, tr: Transcript, tl: Translation, fields: PurchaseOrderFields, ct: CostTracking): UploadBody
    requires o.purchaseOrder.Ok?
  {
    UploadBody(
      tr.text, tl.finalText, tr.isSpanishAudio, tr.isSpanishAudio && tl.translatedText.Some?,
      fields, o.purchaseOrder.value,
      CostSummary(ct.elevenLabsCost, ct.openaiCost, ct.totalCost))
  }

  /** The writes after extraction, only they being in `h.effects`: the memo
      log line, then the purchase-order row (`savePurchaseOrderData`), then
      the cost row (`saveCostData`), then the 200 response. The first write
      that fails hands over to the `catch`, which inserts a cost record of
      its own: a failed cost insert leaves a purchase-order row and two cost
      insert attempts behind. */
  function Persist(o: Oracle, tr: Transcript, tl: Translation, fields: PurchaseOrderFields,
                   ct: CostTracking): (h: Handled)
    ensures 2 <= |h.effects| <= 4
    ensures h.effects[0] == MemoAppend(tl.finalText, o.memo.Ok?)
    ensures |h.effects| == 2 <==> o.memo.Err?
    ensures |h.effects| >= 3 ==>
      h.effects[1] == PurchaseOrderInsert(PurchaseOrderRow(fields, tl.finalText), o.purchaseOrder.Ok?)
    ensures |h.effects| == 4 <==> o.memo.Ok? && o.purchaseOrder.Ok? && o.cost.Err?
    ensures |h.effects| == 4 ==> h.effects[2] == CostInsert(ct, false)
    ensures var last := h.effects[|h.effects| - 1];
      && last.CostInsert? && RecordOf(ct, last.record)
      && (h.response.HandlerRejected? <==> !last.ok)
    ensures h.response.Processed? <==> o.memo.Ok? && o.purchaseOrder.Ok? && o.cost.Ok?
    ensures h.response.Processed? ==>
      && h.effects[|h.effects| - 1] == CostInsert(ct, true)
      && h.response.body == Body(o, tr, tl, fields, ct)
    ensures !h.response.Processed? ==> exists msg :: h.effects[|h.effects| - 1] == CatchRecord(o, msg, ct)
    ensures h.response.ProcessingFailed? ==> h.effects[|h.effects| - 1] == CatchRecord(o, h.response.details, ct)
  {
    var memo := MemoAppend(tl.finalText, o.memo.Ok?);
    var po := PurchaseOrderInsert(PurchaseOrderRow(fields, tl.finalText), o.purchaseOrder.Ok?);
    var cost := CostInsert(ct, o.cost.Ok?);
    if o.memo.Err? then
      Handled(CatchResponse(o, o.memo.msg), [memo, CatchRecord(o, o.memo.msg, ct)])
    else if o.purchaseOrder.Err? then
      Handled(CatchResponse(o, o.purchaseOrder.msg), [memo, po, CatchRecord(o, o.purchaseOrder.msg, ct)])
    else if o.cost.Err? then
      Handled(CatchResponse(o, o.cost.msg), [memo, po, cost, CatchRecord(o, o.cost.msg, ct)])
    else
      Handled(Processed(Body(o, tr, tl, fields, ct)), [memo, po, cost])
  }

  // ---------------------------------------------------------------------
  // The handler: extraction and its price, and the stages assembled
  // ---------------------------------------------------------------------

  /** `costTracking` after extraction: the extraction is priced as input
      and output at its token estimate, and the total is the sum of both
      services. */
  function PriceExtraction(ct: CostTracking, tokens: nat): (c: CostTracking)
    ensures c.totalCost == c.elevenLabsCost + c.openaiCost
    ensures c.openaiCost >= ct.openaiCost
    ensures c.openaiCost == ct.openaiCost <==> tokens == 0
    ensures c == ct.(openaiCost := c.openaiCost, totalCost := c.totalCost)
  {
    var priced := ct.(openaiCost := ct.openaiCost + CompletionCost(tokens, tokens));
    priced.(totalCost := priced.elevenLabsCost + priced.openaiCost)
  }

  /** Where the handler stands when it reaches the writes. */
  datatype Reached = Reached(tl: Translation, extracted: ExtractedData, ct: CostTracking, calls: seq<Effect>)

  /** The middle of the handler, once a transcript is in hand: the
      translation gate, the extraction from the final text and its pricing.
      `calls` are the transcription calls made so far. */
  function Process(o: Oracle, tr: Transcript, ct: CostTracking, calls: seq<Effect>): (r: Reached)
    ensures r.tl == TranslateIfSpanish(o.translation, tr, ct)
    ensures r.extracted == ExtractPurchaseOrderData(r.tl.finalText, o.extraction)
    ensures r.calls == calls + r.tl.calls + [ExtractCall(o.extraction.Replied?)]
    ensures r.ct.totalCost == r.ct.elevenLabsCost + r.ct.openaiCost
    ensures r.ct.openaiCost >= r.tl.ct.openaiCost >= ct.openaiCost
    ensures r.ct.translationUsed == r.tl.ct.translationUsed && r.ct.error == r.tl.ct.error
    ensures r.ct == ct.(openaiCost := r.ct.openaiCost, totalCost := r.ct.totalCost,
                        translationUsed := r.ct.translationUsed, error := r.ct.error)
  {
    var tl := TranslateIfSpanish(o.translation, tr, ct);
    var ex := ExtractPurchaseOrderData(tl.finalText, o.extraction);
    Reached(tl, ex, PriceExtraction(tl.ct, ex.extractionTokens), calls + tl.calls + [ExtractCall(o.extraction.Replied?)])
  }

  /** Of the calls of the middle stage only the translation call is counted,
      under its own kind. */
  lemma {:induction false} CountMiddleCalls(calls: seq<Effect>, translate: seq<Effect>, extract: Effect, k: Kind)
    requires |translate| <= 1 && (forall i :: 0 <= i < |translate| ==> translate[i].TranslateCall?)
    requires extract.ExtractCall?
    ensures Count(calls + translate + [extract], k) == Count(calls, k) + if k.TranslationRequested? then |translate| else 0
  {
    CountAppend(calls, translate, k);
    CountAppend(calls + translate, [extract], k);
    CountOne(extract, k);
    if translate != [] {
      assert translate == [translate[0]];
      CountOne(translate[0], k);
    }
  }

  /** The kinds that count writes. */
  predicate IsWriteKind(k: Kind)
  {
    k.MemoWritten? || k.PurchaseOrderWritten? || k.CostInsertAttempted? || k.CostRowWritten?
  }

  /** The calls made before the writes `h`. */
  function Prefixed(calls: seq<Effect>, h: Handled): (r: Handled)
    ensures r.response == h.response && r.effects == calls + h.effects
  {
    Handled(h.response, calls + h.effects)
  }

  /** The `/upload` handler. Whatever happens, its last act is a cost
      insert, and it answers exactly when that insert succeeds. */
  function HandleUpload(o: Oracle): (h: Handled)
    ensures |h.effects| > 0 && h.effects[|h.effects| - 1].CostInsert?
    ensures h.response.HandlerRejected? <==> !h.effects[|h.effects| - 1].ok
  {
    match o.audio
    case Err(m) => Fail(o, m, InitialCostTracking)
    case Ok(bytes) =>
      var t := TranscribeAudio(o, Prepare(bytes));
      match t.result
      case Err(m) => Prefixed(t.calls, Fail(o, m, t.ct))
      case Ok(tr) =>
        var r := Process(o, tr, t.ct, t.calls);
        Prefixed(r.calls, Persist(o, tr, r.tl, r.extracted.fields, r.ct))
  }
}
