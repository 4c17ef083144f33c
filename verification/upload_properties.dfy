/** Properties of the `/upload` handler over every oracle: what it writes,
    how often, what the cost records say about the trace, and what the 200
    response promises. */
module UploadProperties {
  import opened Outcomes
  import opened Text
  import opened Estimators
  import Language
  import opened Extraction
  import opened Upload

  // ---------------------------------------------------------------------
  // The handler taken apart: service calls, then writes
  // ---------------------------------------------------------------------

  /** The transcription block of the handler, once the file was read. */
  function Stt(o: Oracle): Transcription
    requires o.audio.Ok?
  {
    TranscribeAudio(o, Prepare(o.audio.value))
  }

  /** Whether the handler gets past transcription to the writes. */
  predicate ReachesWrites(o: Oracle)
  {
    o.audio.Ok? && Stt(o).result.Ok?
  }

  function Middle(o: Oracle): Reached
    requires ReachesWrites(o)
  {
    Process(o, Stt(o).result.value, Stt(o).ct, Stt(o).calls)
  }

  /** The calls to the services the handler makes before its first write. */
  function CallsOf(o: Oracle): seq<Effect>
  {
    if o.audio.Err? then []
    else if Stt(o).result.Err? then Stt(o).calls
    else Middle(o).calls
  }

  /** The writes of the handler and its response. */
  function WritesOf(o: Oracle): Handled
  {
    if o.audio.Err? then Fail(o, o.audio.msg, InitialCostTracking)
    else if Stt(o).result.Err? then Fail(o, Stt(o).result.msg, Stt(o).ct)
    else Persist(o, Stt(o).result.value, Middle(o).tl, Middle(o).extracted.fields, Middle(o).ct)
  }

  /** The accumulator the cost records are written from. */
  function FinalTracking(o: Oracle): CostTracking
  {
    if o.audio.Err? then InitialCostTracking
    else if Stt(o).result.Err? then Stt(o).ct
    else Middle(o).ct
  }

  lemma Anatomy(o: Oracle)
    ensures HandleUpload(o) == Handled(WritesOf(o).response, CallsOf(o) + WritesOf(o).effects)
  {
    if o.audio.Err? {
      assert [] + WritesOf(o).effects == WritesOf(o).effects;
    }
  }

  /** A call to a service, as opposed to a write. */
  predicate IsServiceCall(e: Effect)
  {
    e.SttCall? || e.TranslateCall? || e.ExtractCall?
  }

  /** The translation call the middle stage makes, if any. */
  function TranslateCalls(o: Oracle, tr: Transcript): seq<Effect>
  {
    if TranslationGate(tr) then [TranslateCall(o.translation.Translated?)] else []
  }

  lemma MiddleShape(o: Oracle, tr: Transcript, ct: CostTracking, calls: seq<Effect>)
    ensures Process(o, tr, ct, calls).calls == calls + TranslateCalls(o, tr) + [ExtractCall(o.extraction.Replied?)]
  {
  }

  lemma ServiceCallsAppend(calls: seq<Effect>, translate: seq<Effect>, extract: Effect)
    requires forall i :: 0 <= i < |calls| ==> IsServiceCall(calls[i])
    requires forall i :: 0 <= i < |translate| ==> translate[i].TranslateCall?
    requires extract.ExtractCall?
    ensures var r := calls + translate + [extract];
      && r[..|calls|] == calls
      && forall i :: 0 <= i < |r| ==> IsServiceCall(r[i])
  {
    var r := calls + translate + [extract];
    forall i | 0 <= i < |r|
      ensures IsServiceCall(r[i])
    {
      if i < |calls| {
        assert r[i] == calls[i];
      } else if i < |calls| + |translate| {
        assert r[i] == translate[i - |calls|];
      }
    }
  }

  lemma MiddleCallsAreServiceCalls(o: Oracle, tr: Transcript, ct: CostTracking, calls: seq<Effect>)
    requires forall i :: 0 <= i < |calls| ==> IsServiceCall(calls[i])
    ensures var r := Process(o, tr, ct, calls);
      && r.calls[..|calls|] == calls
      && forall i :: 0 <= i < |r.calls| ==> IsServiceCall(r.calls[i])
  {
    MiddleShape(o, tr, ct, calls);
    ServiceCallsAppend(calls, TranslateCalls(o, tr), ExtractCall(o.extraction.Replied?));
  }

  lemma CallsAreServiceCalls(o: Oracle)
    ensures forall i :: 0 <= i < |CallsOf(o)| ==> IsServiceCall(CallsOf(o)[i])
    ensures o.audio.Ok? ==> CallsOf(o)[..|Stt(o).calls|] == Stt(o).calls
  {
    if o.audio.Ok? {
      var t := Stt(o);
      assert forall i :: 0 <= i < |t.calls| ==> IsServiceCall(t.calls[i]);
      if t.result.Ok? {
        MiddleCallsAreServiceCalls(o, t.result.value, t.ct, t.calls);
      }
    }
  }

  /** The number of effects of kind `k` is that of the calls plus that of
      the writes. */
  lemma CountSplit(o: Oracle, k: Kind)
    ensures Count(HandleUpload(o).effects, k) == Count(CallsOf(o), k) + Count(WritesOf(o).effects, k)
  {
    Anatomy(o);
    CountAppend(CallsOf(o), WritesOf(o).effects, k);
  }

  /** Only the transcription and translation kinds count calls. */
  lemma CallsWriteNothing(o: Oracle, k: Kind)
    requires IsWriteKind(k)
    ensures Count(CallsOf(o), k) == 0
  {
    CallsAreServiceCalls(o);
    CountZero(CallsOf(o), k);
  }

  /** The counts of kind `k` over the writes after extraction. */
  lemma PersistCounts(o: Oracle, tr: Transcript, tl: Translation, fields: PurchaseOrderFields,
                      ct: CostTracking, k: Kind)
    ensures var w := Persist(o, tr, tl, fields, ct);
      Count(w.effects, k) ==
        match k
        case TranscriptionSucceeded => 0
        case TranslationRequested => 0
        case MemoWritten => if o.memo.Ok? then 1 else 0
        case PurchaseOrderWritten => if o.memo.Ok? && o.purchaseOrder.Ok? then 1 else 0
        case CostInsertAttempted => if o.memo.Ok? && o.purchaseOrder.Ok? && o.cost.Err? then 2 else 1
        case CostRowWritten => if w.response.HandlerRejected? then 0 else 1
  {
    var e := Persist(o, tr, tl, fields, ct).effects;
    if |e| == 2 {
      assert e == [e[0], e[1]];
      CountTwo(e[0], e[1], k);
    } else if |e| == 3 {
      assert e == [e[0], e[1], e[2]];
      CountThree(e[0], e[1], e[2], k);
    } else {
      assert e == [e[0], e[1], e[2], e[3]];
      CountFour(e[0], e[1], e[2], e[3], k);
    }
  }

  /** The counts of kind `k` over the writes of the handler. */
  lemma WriteCounts(o: Oracle, k: Kind)
    ensures var w := WritesOf(o);
      Count(w.effects, k) ==
        match k
        case TranscriptionSucceeded => 0
        case TranslationRequested => 0
        case MemoWritten => if ReachesWrites(o) && o.memo.Ok? then 1 else 0
        case PurchaseOrderWritten => if ReachesWrites(o) && o.memo.Ok? && o.purchaseOrder.Ok? then 1 else 0
        case CostInsertAttempted =>
          if ReachesWrites(o) && o.memo.Ok? && o.purchaseOrder.Ok? && o.cost.Err? then 2 else 1
        case CostRowWritten => if w.response.HandlerRejected? then 0 else 1
  {
    var w := WritesOf(o);
    if !ReachesWrites(o) {
      CountOne(w.effects[0], k);
    } else {
      PersistCounts(o, Stt(o).result.value, Middle(o).tl, Middle(o).extracted.fields, Middle(o).ct, k);
    }
  }

  // ---------------------------------------------------------------------
  // The accumulator the records are written from
  // ---------------------------------------------------------------------

  lemma PersistRecords(o: Oracle, tr: Transcript, tl: Translation, fields: PurchaseOrderFields, ct: CostTracking)
    ensures var w := Persist(o, tr, tl, fields, ct).effects;
      forall i :: 0 <= i < |w| && w[i].CostInsert? ==> RecordOf(ct, w[i].record)
  {
    var w := Persist(o, tr, tl, fields, ct).effects;
    assert |w| == 2 ==> w == [w[0], w[1]];
    assert |w| == 3 ==> w == [w[0], w[1], w[2]];
    assert |w| == 4 ==> w == [w[0], w[1], w[2], w[3]];
  }

  lemma WriteRecords(o: Oracle)
    ensures var w := WritesOf(o).effects;
      forall i :: 0 <= i < |w| && w[i].CostInsert? ==> RecordOf(FinalTracking(o), w[i].record)
  {
    if ReachesWrites(o) {
      PersistRecords(o, Stt(o).result.value, Middle(o).tl, Middle(o).extracted.fields, Middle(o).ct);
    }
  }

  /** Service calls put in front of some writes add no cost record. */
  lemma RecordsAfterCalls(calls: seq<Effect>, w: seq<Effect>, ct: CostTracking)
    requires forall i :: 0 <= i < |calls| ==> IsServiceCall(calls[i])
    requires forall i :: 0 <= i < |w| && w[i].CostInsert? ==> RecordOf(ct, w[i].record)
    ensures forall i :: 0 <= i < |calls + w| && (calls + w)[i].CostInsert? ==> RecordOf(ct, (calls + w)[i].record)
  {
    forall i | 0 <= i < |calls + w| && (calls + w)[i].CostInsert?
      ensures RecordOf(ct, (calls + w)[i].record)
    {
      if i >= |calls| {
        assert (calls + w)[i] == w[i - |calls|];
      }
    }
  }

  /** Every cost record of the trace is written from the final accumulator. */
  lemma RecordsOfFinalTracking(o: Oracle)
    ensures var h := HandleUpload(o);
      forall i :: 0 <= i < |h.effects| && h.effects[i].CostInsert? ==> RecordOf(FinalTracking(o), h.effects[i].record)
  {
    Anatomy(o);
    CallsAreServiceCalls(o);
    WriteRecords(o);
    RecordsAfterCalls(CallsOf(o), WritesOf(o).effects, FinalTracking(o));
  }

  /** A transcript judged Spanish is the Spanish-tuned call's text, came
      from that call alone, and opens the translation gate. */
  lemma SpanishTranscriptKept(o: Oracle, ct: CostTracking)
    requires Language.WellFormed(o.lexicon)
    ensures var t := TranscribeAudio(o, ct);
      t.result.Ok? && t.result.value.isSpanishAudio ==>
        && t.result.value.text == o.spanishTranscription.value
        && t.calls == [SttCall(Es, true)]
        && TranslationGate(t.result.value)
  {
    if o.spanishTranscription.Ok? && Language.IsSpanish(o.lexicon, o.spanishTranscription.value) {
      Language.SpanishIsNotBlank(o.lexicon, o.spanishTranscription.value);
    }
  }

  /** The final accumulator: the attempt counter counts the transcription
      calls that returned, `translationUsed` says whether the translation
      was requested, and size, duration and transcription cost come from
      the file. */
  lemma FinalTrackingFacts(o: Oracle)
    requires Language.WellFormed(o.lexicon)
    ensures var ct := FinalTracking(o);
      && ct.transcriptionAttempts == (if o.audio.Ok? then Count(Stt(o).calls, TranscriptionSucceeded) else 0)
      && (ct.translationUsed <==> ReachesWrites(o) && Stt(o).result.value.isSpanishAudio)
      && ct.audioSizeBytes == (if o.audio.Ok? then o.audio.value else 0)
      && ct.estimatedDurationMinutes == (if o.audio.Ok? then EstimateAudioDurationMinutes(o.audio.value) else 0.0)
      && ct.elevenLabsCost ==
           (if o.audio.Err? then 0.0
            else if DoubledCharge(Stt(o).calls) then 2.0 * TranscriptionCost(EstimateAudioDurationMinutes(o.audio.value))
            else TranscriptionCost(EstimateAudioDurationMinutes(o.audio.value)))
  {
    if ReachesWrites(o) {
      SpanishTranscriptKept(o, Prepare(o.audio.value));
    }
  }

  // ---------------------------------------------------------------------
  // What the handler writes, and how often
  // ---------------------------------------------------------------------

  /** The counts of the writes over the whole trace are those of the writes
      alone. */
  lemma WriteKindCounts(o: Oracle, k: Kind)
    requires IsWriteKind(k)
    ensures Count(HandleUpload(o).effects, k) == Count(WritesOf(o).effects, k)
  {
    CountSplit(o, k);
    CallsWriteNothing(o, k);
  }

  /** Whatever the services do, the cost table gets one row unless the
      handler rejects, and none when it does; the memo line is written at
      most once, and the purchase-order row at most once and only after it;
      a second cost insert is attempted exactly when a purchase-order row
      was written and still no 200 response came, that is, when the first
      cost insert rejected. */
  lemma WritesAtMostOnce(o: Oracle)
    ensures var h := HandleUpload(o);
      && Count(h.effects, CostRowWritten) == (if h.response.HandlerRejected? then 0 else 1)
      && Count(h.effects, MemoWritten) <= 1
      && Count(h.effects, PurchaseOrderWritten) <= Count(h.effects, MemoWritten)
      && 1 <= Count(h.effects, CostInsertAttempted) <= 2
      && (Count(h.effects, CostInsertAttempted) == 2 <==>
            Count(h.effects, PurchaseOrderWritten) == 1 && !h.response.Processed?)
  {
    Anatomy(o);
    WriteKindCounts(o, CostRowWritten);
    WriteKindCounts(o, MemoWritten);
    WriteKindCounts(o, PurchaseOrderWritten);
    WriteKindCounts(o, CostInsertAttempted);
    WriteCounts(o, CostRowWritten);
    WriteCounts(o, MemoWritten);
    WriteCounts(o, PurchaseOrderWritten);
    WriteCounts(o, CostInsertAttempted);
  }

  /** When every table insert succeeds, whatever the memo log does, every
      request inserts exactly one cost record and the handler does not
      reject. */
  lemma OneCostRecordWhenInsertsSucceed(o: Oracle)
    requires o.purchaseOrder.Ok? && o.cost.Ok? && o.failureCost.Ok?
    ensures var h := HandleUpload(o);
      && Count(h.effects, CostInsertAttempted) == 1
      && Count(h.effects, CostRowWritten) == 1
      && !h.response.HandlerRejected?
  {
    Anatomy(o);
    WriteKindCounts(o, CostInsertAttempted);
    WriteKindCounts(o, CostRowWritten);
    WriteCounts(o, CostInsertAttempted);
    WriteCounts(o, CostRowWritten);
    if ReachesWrites(o) && o.memo.Ok? {
      assert WritesOf(o).response.Processed?;
    } else {
      assert WritesOf(o).response.ProcessingFailed?;
    }
  }

  /** A 200 response comes exactly when the file is read, a transcript is
      obtained and the three writes succeed. */
  lemma ProcessedExactly(o: Oracle)
    ensures HandleUpload(o).response.Processed? <==>
      ReachesWrites(o) && o.memo.Ok? && o.purchaseOrder.Ok? && o.cost.Ok?
  {
    Anatomy(o);
  }

  /** After a 200 response the trace ends with the memo line of the final
      text, the purchase-order row of the extracted fields and that text,
      and the cost row, whose total is the sum of the two services and whose
      error is set only by a failed translation; the body reports that row's
      costs, the new row's id and the fields extracted from the final
      text. */
  lemma SuccessfulUpload(o: Oracle)
    requires Language.WellFormed(o.lexicon)
    ensures var h := HandleUpload(o); var n := |h.effects|;
      h.response.Processed? ==>
        var b := h.response.body; var last := h.effects[n - 1];
        && n >= 3
        && h.effects[n - 3] == MemoAppend(b.finalText, true)
        && h.effects[n - 2] == PurchaseOrderInsert(PurchaseOrderRow(b.extractedData, b.finalText), true)
        && last.CostInsert? && last.ok
        && last.record.totalCost == last.record.elevenLabsCost + last.record.openaiCost
        && last.record.error == (if b.wasSpanish && !b.wasTranslated then Some(TranslationFailedMessage) else None)
        && b.costTracking == CostSummary(last.record.elevenLabsCost, last.record.openaiCost, last.record.totalCost)
        && o.purchaseOrder == Ok(b.purchaseOrderId)
        && b.extractedData == ExtractPurchaseOrderData(b.finalText, o.extraction).fields
  {
    Anatomy(o);
    if ReachesWrites(o) && WritesOf(o).response.Processed? {
      SuccessfulWrites(o);
      var w := WritesOf(o);
      var h := HandleUpload(o);
      assert h.effects[|h.effects| - 3] == w.effects[0];
      assert h.effects[|h.effects| - 2] == w.effects[1];
      assert h.effects[|h.effects| - 1] == w.effects[2];
    }
  }

  /** The writes of a successful request, before the calls are put in front. */
  lemma SuccessfulWrites(o: Oracle)
    requires Language.WellFormed(o.lexicon)
    requires ReachesWrites(o) && WritesOf(o).response.Processed?
    ensures var w := WritesOf(o); var b := w.response.body;
      && |w.effects| == 3
      && w.effects[0] == MemoAppend(b.finalText, true)
      && w.effects[1] == PurchaseOrderInsert(PurchaseOrderRow(b.extractedData, b.finalText), true)
      && w.effects[2].CostInsert? && w.effects[2].ok
      && var r := w.effects[2].record;
      && r.totalCost == r.elevenLabsCost + r.openaiCost
      && r.error == (if b.wasSpanish && !b.wasTranslated then Some(TranslationFailedMessage) else None)
      && b.costTracking == CostSummary(r.elevenLabsCost, r.openaiCost, r.totalCost)
      && o.purchaseOrder == Ok(b.purchaseOrderId)
      && b.extractedData == ExtractPurchaseOrderData(b.finalText, o.extraction).fields
  {
    SpanishTranscriptKept(o, Prepare(o.audio.value));
  }

  /** A request not answered with 200 ends with the `catch`'s cost record:
      its error is set and its total is the transcription cost alone, even
      when completions were already priced. When the 500 is sent, that
      insert succeeded and the response's details are the record's error. */
  lemma FailedUpload(o: Oracle)
    ensures var h := HandleUpload(o); var last := h.effects[|h.effects| - 1];
      !h.response.Processed? ==>
        && last.record.error.Some?
        && last.record.totalCost == last.record.elevenLabsCost
        && last.record.openaiCost == FinalTracking(o).openaiCost
        && (h.response.ProcessingFailed? ==> last.ok && last.record.error == Some(h.response.details))
  {
    Anatomy(o);
    FailedWrites(o);
    var w := WritesOf(o);
    var h := HandleUpload(o);
    assert h.effects[|h.effects| - 1] == w.effects[|w.effects| - 1];
  }

  lemma FailedWrites(o: Oracle)
    ensures var w := WritesOf(o); var last := w.effects[|w.effects| - 1];
      !w.response.Processed? ==>
        && last.CostInsert?
        && last.record.error.Some?
        && last.record.totalCost == last.record.elevenLabsCost
        && last.record.openaiCost == FinalTracking(o).openaiCost
        && (w.response.ProcessingFailed? ==> last.ok && last.record.error == Some(w.response.details))
  {
  }

  /** A file that cannot be read makes no call: the only effect is the
      `catch`'s cost record, zero in every cost and count, carrying the
      error. */
  lemma UnreadableFile(o: Oracle)
    requires o.audio.Err?
    ensures HandleUpload(o).effects == [CostInsert(InitialCostTracking.(error := Some(o.audio.msg)), o.failureCost.Ok?)]
    ensures HandleUpload(o).response == if o.failureCost.Ok? then ProcessingFailed(o.audio.msg) else HandlerRejected
  {
  }

  /** Without a transcript the handler makes transcription calls only, then
      the `catch`'s cost insert: no translation, no extraction, no memo line,
      no purchase order. */
  lemma NoTranscript(o: Oracle)
    requires o.audio.Ok? && Stt(o).result.Err?
    ensures var h := HandleUpload(o);
      && (forall i :: 0 <= i < |h.effects| - 1 ==> h.effects[i].SttCall?)
      && h.response == if o.failureCost.Ok? then ProcessingFailed(Stt(o).result.msg) else HandlerRejected
  {
    var t := Stt(o);
    var h := HandleUpload(o);
    assert h.effects == t.calls + Fail(o, t.result.msg, t.ct).effects;
    assert forall i :: 0 <= i < |t.calls| ==> t.calls[i].SttCall?;
    forall i | 0 <= i < |h.effects| - 1
      ensures h.effects[i].SttCall?
    {
      assert h.effects[i] == t.calls[i];
    }
  }

  // ---------------------------------------------------------------------
  // Transcription, language and the cost records
  // ---------------------------------------------------------------------

  /** The outcomes of the transcription block, case by case: the text kept,
      the attempt counter and the transcription cost. A Spanish result the
      heuristic accepts is kept after one attempt; one it rejects is
      replaced by the English result and the cost doubles, unless that
      English call raises, in which case the fallback English call decides
      without doubling; a raising Spanish call goes straight to the
      fallback. */
  lemma TranscriptionCases(o: Oracle, ct: CostTracking)
    ensures var t := TranscribeAudio(o, ct);
      var n := ct.transcriptionAttempts; var c := ct.elevenLabsCost;
      match o.spanishTranscription
      case Ok(s) =>
        if Language.IsSpanish(o.lexicon, s) then
          t.result == Ok(Transcript(s, true)) && t.ct.transcriptionAttempts == n + 1 && t.ct.elevenLabsCost == c
        else
          (match o.firstEnglishTranscription
           case Ok(e) =>
             t.result == Ok(Transcript(e, false)) && t.ct.transcriptionAttempts == n + 2 && t.ct.elevenLabsCost == 2.0 * c
           case Err(_) =>
             (match o.secondEnglishTranscription
              case Ok(e) =>
                t.result == Ok(Transcript(e, false)) && t.ct.transcriptionAttempts == n + 2 && t.ct.elevenLabsCost == c
              case Err(m) =>
                t.result == Err(m) && t.ct.transcriptionAttempts == n + 1 && t.ct.elevenLabsCost == c))
      case Err(_) =>
        match o.firstEnglishTranscription
        case Ok(e) => t.result == Ok(Transcript(e, false)) && t.ct.transcriptionAttempts == n + 1 && t.ct.elevenLabsCost == c
        case Err(m) => t.result == Err(m) && t.ct.transcriptionAttempts == n && t.ct.elevenLabsCost == c
  {
  }

  /** The case in which the transcription cost is doubled: the Spanish
      result was rejected and the English call after it returned. */
  predicate RejectedThenEnglish(o: Oracle)
  {
    && o.spanishTranscription.Ok?
    && !Language.IsSpanish(o.lexicon, o.spanishTranscription.value)
    && o.firstEnglishTranscription.Ok?
  }

  lemma DoubledExactlyWhenRejected(o: Oracle, ct: CostTracking)
    ensures DoubledCharge(TranscribeAudio(o, ct).calls) <==> RejectedThenEnglish(o)
  {
    TranscriptionCases(o, ct);
  }

  /** The service calls count the transcription calls that returned and at
      most one translation request, made exactly for a Spanish transcript. */
  lemma CallCounts(o: Oracle)
    requires Language.WellFormed(o.lexicon)
    ensures Count(CallsOf(o), TranscriptionSucceeded) ==
      if o.audio.Ok? then Count(Stt(o).calls, TranscriptionSucceeded) else 0
    ensures Count(CallsOf(o), TranslationRequested) ==
      if ReachesWrites(o) && Stt(o).result.value.isSpanishAudio then 1 else 0
  {
    if o.audio.Ok? {
      var t := Stt(o);
      TranscriptionRequestsNoTranslation(t.calls);
      if t.result.Ok? {
        MiddleCounts(o, t.result.value, t.ct, t.calls);
        SpanishTranscriptKept(o, Prepare(o.audio.value));
      }
    }
  }

  lemma MiddleCounts(o: Oracle, tr: Transcript, ct: CostTracking, calls: seq<Effect>)
    ensures var r := Process(o, tr, ct, calls);
      && Count(r.calls, TranscriptionSucceeded) == Count(calls, TranscriptionSucceeded)
      && Count(r.calls, TranslationRequested) == Count(calls, TranslationRequested) + if TranslationGate(tr) then 1 else 0
  {
    MiddleShape(o, tr, ct, calls);
    var translate := TranslateCalls(o, tr);
    var extract := ExtractCall(o.extraction.Replied?);
    CountMiddleCalls(calls, translate, extract, TranscriptionSucceeded);
    CountMiddleCalls(calls, translate, extract, TranslationRequested);
  }

  lemma TranscriptionRequestsNoTranslation(calls: seq<Effect>)
    requires FallbackOrder(calls)
    ensures Count(calls, TranslationRequested) == 0
  {
    assert forall i :: 0 <= i < |calls| ==> !IsKind(calls[i], TranslationRequested);
    CountZero(calls, TranslationRequested);
  }

  /** Every cost record agrees with the trace: its attempt counter is the
      number of transcription calls that returned, `translationUsed` says
      whether a translation was requested, and size, duration and
      transcription cost come from the file, the cost being one
      transcription's price, doubled exactly when a rejected Spanish result
      was replaced by an English one. */
  lemma CostRecordsMatchTrace(o: Oracle)
    requires Language.WellFormed(o.lexicon)
    ensures var h := HandleUpload(o);
      forall i :: 0 <= i < |h.effects| && h.effects[i].CostInsert? ==>
        var rec := h.effects[i].record;
        && rec.transcriptionAttempts == Count(h.effects, TranscriptionSucceeded)
        && (rec.translationUsed <==> Count(h.effects, TranslationRequested) > 0)
        && rec.audioSizeBytes == (if o.audio.Ok? then o.audio.value else 0)
        && rec.estimatedDurationMinutes == (if o.audio.Ok? then EstimateAudioDurationMinutes(o.audio.value) else 0.0)
        && rec.elevenLabsCost ==
             (if o.audio.Err? then 0.0
              else if RejectedThenEnglish(o) then 2.0 * TranscriptionCost(EstimateAudioDurationMinutes(o.audio.value))
              else TranscriptionCost(EstimateAudioDurationMinutes(o.audio.value)))
  {
    RecordsOfFinalTracking(o);
    FinalTrackingFacts(o);
    CallCounts(o);
    CountSplit(o, TranscriptionSucceeded);
    CountSplit(o, TranslationRequested);
    WriteCounts(o, TranscriptionSucceeded);
    WriteCounts(o, TranslationRequested);
    if o.audio.Ok? {
      DoubledExactlyWhenRejected(o, Prepare(o.audio.value));
    }
  }

  /** The language flags of a 200 response: `wasSpanish` exactly when the
      Spanish-tuned call returned text the heuristic accepts, which is then
      the transcription; `wasTranslated` exactly when, in addition, the
      translation returned, and its trimmed text is then the final text;
      otherwise the final text is the transcription. One translation request
      was made exactly for Spanish audio. */
  lemma LanguageFlags(o: Oracle)
    requires Language.WellFormed(o.lexicon)
    ensures var h := HandleUpload(o);
      h.response.Processed? ==>
        var b := h.response.body;
        && (b.wasSpanish <==> o.spanishTranscription.Ok? && Language.IsSpanish(o.lexicon, o.spanishTranscription.value))
        && (b.wasSpanish ==> b.transcription == o.spanishTranscription.value)
        && (b.wasTranslated <==> b.wasSpanish && o.translation.Translated?)
        && (b.wasTranslated ==> b.finalText == Trim(o.translation.content))
        && (!b.wasTranslated ==> b.finalText == b.transcription)
        && Count(h.effects, TranslationRequested) == (if b.wasSpanish then 1 else 0)
  {
    Anatomy(o);
    TranslationRequests(o);
    if ReachesWrites(o) && WritesOf(o).response.Processed? {
      TranslationOutcome(o);
      TranslatedBody(o);
    }
  }

  /** A translation is requested once for a Spanish transcript and never
      otherwise. */
  lemma TranslationRequests(o: Oracle)
    requires Language.WellFormed(o.lexicon)
    ensures Count(HandleUpload(o).effects, TranslationRequested) ==
      if ReachesWrites(o) && Stt(o).result.value.isSpanishAudio then 1 else 0
  {
    CallCounts(o);
    CountSplit(o, TranslationRequested);
    WriteCounts(o, TranslationRequested);
  }

  /** The translation block behind a transcript: it translates exactly a
      Spanish transcript, the final text being the trimmed translation when
      that returns and the transcript otherwise. */
  lemma TranslationOutcome(o: Oracle)
    requires Language.WellFormed(o.lexicon)
    requires ReachesWrites(o)
    ensures var tr := Stt(o).result.value; var tl := Middle(o).tl;
      && (tr.isSpanishAudio <==> o.spanishTranscription.Ok? && Language.IsSpanish(o.lexicon, o.spanishTranscription.value))
      && (tr.isSpanishAudio ==> tr.text == o.spanishTranscription.value)
      && (tl.translatedText.Some? <==> tr.isSpanishAudio && o.translation.Translated?)
      && (tl.translatedText.Some? ==> tl.finalText == Trim(o.translation.content))
      && (tl.translatedText.None? ==> tl.finalText == tr.text)
  {
    SpanishTranscriptKept(o, Prepare(o.audio.value));
  }

  /** The language fields of the 200 body, from the transcript and the
      translation block. */
  lemma TranslatedBody(o: Oracle)
    requires ReachesWrites(o) && WritesOf(o).response.Processed?
    ensures var b := WritesOf(o).response.body; var tr := Stt(o).result.value; var tl := Middle(o).tl;
      && b.wasSpanish == tr.isSpanishAudio
      && b.transcription == tr.text
      && b.finalText == tl.finalText
      && b.wasTranslated == (tr.isSpanishAudio && tl.translatedText.Some?)
  {
  }
}
