/**
 * The client-side translation coalescer (`EnhancedTranslationService`).
 *
 * Callers ask for translations one text at a time; the service collects the
 * requests in a pending batch keyed by cache key (so a duplicate request joins
 * the one already pending), flushes the batch when it reaches ten entries or
 * when its timer fires, and then, per language pair, looks the texts up in the
 * remote translation cache, sends only the misses to the `translate`
 * function, and answers every drained request exactly once, falling back to
 * the original text.
 *
 * The remote cache query and the function invocation are parameters
 * (`CacheLookup`, `TranslateInvoke`); the timer is the `timerArmed` flag
 * together with an explicit `Flush` for the moment it fires; the
 * `translationReady` events become the key-to-text map a flush returns.
 */
module EnhancedTranslation {
  import opened Wrappers
  import opened Ascii
  import opened Seqs
  import opened TranslationKeys
  import TranslateFunction

  const MaxBatchSize := 10

  /** A row of the remote `translations` table. */
  datatype Row = Row(sourceText: string, sourceLanguage: string, targetLanguage: string, translatedText: string)

  function RowKey(row: Row): string {
    CacheKey(row.sourceText, row.sourceLanguage, row.targetLanguage)
  }

  /**
   * The cache query for the given texts and language pair: the rows found, or
   * None when the query reports an error or throws.
   */
  type CacheLookup = (seq<string>, string, string) -> Option<seq<Row>>

  /** What `functions.invoke('translate', …)` yields on the client. */
  datatype InvokeReply =
    | InvokeError                               // an `error`, or an exception
    | InvokeData(translations: Option<seq<string>>) // `data.translations`, if present

  /** The invocation of the `translate` function with the texts and language pair. */
  type TranslateInvoke = (seq<string>, string, string) -> InvokeReply

  /** The outcome of `translateText`: an immediate string, or a wait for the answer under `key`. */
  datatype Answer = Immediate(text: string) | Awaiting(key: string)

  /** Requests that are answered at once with their own text, without touching the batch. */
  function IsTrivial(text: string, fromLanguage: string, toLanguage: string): (b: bool)
    ensures AllWhitespace(text) ==> b
    ensures !b ==> fromLanguage != toLanguage && |text| >= 2
  {
    BlankIffAllWhitespace(text);
    fromLanguage == toLanguage || text == "" || |Trim(text)| < 2
  }

  function Texts(reqs: seq<Request>): (texts: seq<string>)
    ensures |texts| == |reqs| && forall i :: 0 <= i < |reqs| ==> texts[i] == reqs[i].text
  {
    if reqs == [] then [] else [reqs[0].text] + Texts(reqs[1..])
  }

  /** The rows as a key-to-translation map; a later row with the same key wins. */
  function RowsToMap(rows: seq<Row>): (m: map<string, string>)
    ensures |m| <= |rows|
  {
    if rows == [] then map[]
    else
      var last := rows[|rows| - 1];
      RowsToMap(rows[..|rows| - 1])[RowKey(last) := last.translatedText]
  }

  /** Every row's key is in the map, and every entry comes from a row. */
  lemma RowsToMapEntries(rows: seq<Row>)
    ensures forall i :: 0 <= i < |rows| ==> RowKey(rows[i]) in RowsToMap(rows)
    ensures forall k :: k in RowsToMap(rows) ==>
      exists i :: 0 <= i < |rows| && RowKey(rows[i]) == k && RowsToMap(rows)[k] == rows[i].translatedText
  {
    RowsToMapCovers(rows);
    forall k | k in RowsToMap(rows)
      ensures exists i :: 0 <= i < |rows| && RowKey(rows[i]) == k && RowsToMap(rows)[k] == rows[i].translatedText
    {
      var i := RowsToMapSource(rows, k);
    }
  }

  lemma {:induction false} RowsToMapCovers(rows: seq<Row>)
    ensures forall i :: 0 <= i < |rows| ==> RowKey(rows[i]) in RowsToMap(rows)
  {
    if rows != [] {
      var init := rows[..|rows| - 1];
      RowsToMapCovers(init);
      assert forall i :: 0 <= i < |init| ==> init[i] == rows[i];
    }
  }

  lemma {:induction false} RowsToMapSource(rows: seq<Row>, k: string) returns (i: nat)
    requires k in RowsToMap(rows)
    ensures i < |rows| && RowKey(rows[i]) == k && RowsToMap(rows)[k] == rows[i].translatedText
  {
    var last := rows[|rows| - 1];
    var init := rows[..|rows| - 1];
    if RowKey(last) == k {
      i := |rows| - 1;
    } else {
      i := RowsToMapSource(init, k);
      assert init[i] == rows[i];
    }
  }

  /** `getCachedTranslations`: the cache hits for a group, using the first request's language pair. */
  function CachedTranslations(reqs: seq<Request>, lookup: CacheLookup): (m: map<string, string>)
    ensures reqs == [] ==> m == map[]
  {
    if reqs == [] then map[]
    else
      match lookup(Texts(reqs), reqs[0].fromLanguage, reqs[0].toLanguage)
      case None => map[]
      case Some(rows) => RowsToMap(rows)
  }

  /** The requests whose key the cache lookup did not return, in order. */
  function Uncached(reqs: seq<Request>, cached: map<string, string>): (r: seq<Request>)
    ensures |r| <= |reqs|
  {
    if reqs == [] then []
    else (if Key(reqs[0]) !in cached then [reqs[0]] else []) + Uncached(reqs[1..], cached)
  }

  /** The requests sent to the API are exactly the group's cache misses. */
  lemma {:induction false} UncachedMembers(reqs: seq<Request>, cached: map<string, string>)
    ensures forall q :: q in Uncached(reqs, cached) <==> q in reqs && Key(q) !in cached
  {
    if reqs != [] {
      UncachedMembers(reqs[1..], cached);
      assert reqs == [reqs[0]] + reqs[1..];
    }
  }

  /** The invocation for a non-empty list of requests. */
  function InvokeFor(reqs: seq<Request>, invoke: TranslateInvoke): InvokeReply
    requires reqs != []
  {
    invoke(Texts(reqs), reqs[0].fromLanguage, reqs[0].toLanguage)
  }

  /** The text the API step gives request `i`: `data.translations[i] || req.text`, or the text on error. */
  function ApiText(reqs: seq<Request>, reply: InvokeReply, i: nat): (t: string)
    requires i < |reqs|
    ensures reply == InvokeError ==> t == reqs[i].text
    // `||` never turns a non-empty text into an empty answer
    ensures t == "" ==> reqs[i].text == ""
  {
    match reply
    case InvokeData(Some(ts)) => if i < |ts| && ts[i] != "" then ts[i] else reqs[i].text
    case _ => reqs[i].text
  }

  /** The results map after the first `n` requests have been visited. */
  function ApiResultsUpTo(reqs: seq<Request>, reply: InvokeReply, n: nat): map<string, string>
    requires n <= |reqs|
  {
    if reply == InvokeData(None) || n == 0 then map[]
    else ApiResultsUpTo(reqs, reply, n - 1)[Key(reqs[n - 1]) := ApiText(reqs, reply, n - 1)]
  }

  /** `batchTranslateWithAPI`'s results map for a given reply. */
  function ApiResults(reqs: seq<Request>, reply: InvokeReply): (m: map<string, string>)
    ensures reply == InvokeData(None) ==> m == map[]
  {
    ApiResultsUpTo(reqs, reply, |reqs|)
  }

  /** The rows handed to the (fire-and-forget) cache write. */
  function RowsToSave(reqs: seq<Request>, reply: InvokeReply): (rows: seq<Row>)
    ensures rows == [] || |rows| == |reqs|
    // each row is stored under its request's own cache key, so a later lookup finds it
    ensures forall i :: 0 <= i < |rows| ==> RowKey(rows[i]) == Key(reqs[i])
  {
    if reply.InvokeData? && reply.translations.Some? then
      seq(|reqs|, i requires 0 <= i < |reqs| =>
        Row(reqs[i].text, reqs[i].fromLanguage, reqs[i].toLanguage, ApiText(reqs, reply, i)))
    else []
  }

  /** The merged cache hits and API results of one language-pair group. */
  function Merged(group: seq<Request>, lookup: CacheLookup, invoke: TranslateInvoke): (m: map<string, string>)
    ensures CachedTranslations(group, lookup).Keys <= m.Keys
  {
    var cached := CachedTranslations(group, lookup);
    var uncached := Uncached(group, cached);
    if uncached != [] then cached + ApiResults(uncached, InvokeFor(uncached, invoke)) else cached
  }

  /** `cachedTranslations.get(key) || req.text`. */
  function Resolve(merged: map<string, string>, r: Request): (t: string)
    ensures t == "" ==> r.text == ""
  {
    if Key(r) in merged && merged[Key(r)] != "" then merged[Key(r)] else r.text
  }

  /** The requests of the batch that share `r`'s language pair. */
  function GroupOf(requests: seq<Request>, r: Request): seq<Request> {
    Select(requests, PairKey, PairKey(r))
  }

  /** The text dispatched for request `r` when the drained `requests` are processed. */
  function AnswerFor(requests: seq<Request>, r: Request, lookup: CacheLookup, invoke: TranslateInvoke): (t: string)
    // a request with a non-empty text is never answered with the empty string
    ensures t == "" ==> r.text == ""
  {
    Resolve(Merged(GroupOf(requests, r), lookup, invoke), r)
  }

  /** `Array.from(batch.values())`: the pending requests in insertion order. */
  function RequestsOf(order: seq<string>, batch: map<string, Request>): (reqs: seq<Request>)
    ensures |reqs| == |order|
    ensures forall i :: 0 <= i < |order| && order[i] in batch ==> reqs[i] == batch[order[i]]
  {
    if order == [] then []
    else [if order[0] in batch then batch[order[0]] else Request("", "", "")] + RequestsOf(order[1..], batch)
  }

  /** A batch is a map from each request's cache key to the request, with its keys listed once each in order. */
  ghost predicate KeyedBatch(order: seq<string>, batch: map<string, Request>) {
    && Distinct(order)
    && (forall k :: k in batch <==> k in order)
    && (forall k :: k in batch ==> Key(batch[k]) == k)
  }

  /** The requests of a keyed batch and its map agree key by key. */
  lemma RequestsOfByKey(order: seq<string>, batch: map<string, Request>)
    requires KeyedBatch(order, batch)
    ensures forall k :: k in batch ==> batch[k] in RequestsOf(order, batch)
    ensures forall r :: r in RequestsOf(order, batch) ==> Key(r) in batch && batch[Key(r)] == r
  {
    var reqs := RequestsOf(order, batch);
    forall k | k in batch ensures batch[k] in reqs {
      var i :| 0 <= i < |order| && order[i] == k;
      assert reqs[i] == batch[k];
    }
  }

  /** An empty keyed batch lists no keys. */
  lemma EmptyBatchHasNoOrder(order: seq<string>, batch: map<string, Request>)
    requires KeyedBatch(order, batch)
    ensures |batch| == 0 ==> order == []
  {
    if order != [] {
      assert order[0] in batch;
    }
  }

  class EnhancedTranslationService {
    /** The pending requests by cache key. */
    var pendingBatch: map<string, Request>
    /** The keys of `pendingBatch` in insertion order (the iteration order of a JavaScript Map). */
    var pendingOrder: seq<string>
    /** Whether a flush timer is scheduled. */
    var timerArmed: bool

    /** Between calls the batch holds fewer than ten requests and a timer runs exactly when it is not empty. */
    ghost predicate Valid()
      reads this
    {
      && KeyedBatch(pendingOrder, pendingBatch)
      && |pendingBatch| < MaxBatchSize
      && (timerArmed <==> pendingBatch != map[])
    }

    constructor ()
      ensures Valid() && pendingBatch == map[] && pendingOrder == [] && !timerArmed
    {
      pendingBatch, pendingOrder, timerArmed := map[], [], false;
    }

    /**
     * `batchTranslateWithAPI`: one invocation for the requests, then one
     * result per request (the translation at its index if non-empty, else its
     * own text; its own text on error) and the rows to write back to the cache.
     */
    static method BatchTranslateWithAPI(requests: seq<Request>, invoke: TranslateInvoke)
      returns (results: map<string, string>, toCache: seq<Row>)
      ensures requests == [] ==> results == map[] && toCache == []
      ensures requests != [] ==>
        results == ApiResults(requests, InvokeFor(requests, invoke))
        && toCache == RowsToSave(requests, InvokeFor(requests, invoke))
    {
      results, toCache := map[], [];
      if requests == [] {
        // `requests[0].fromLanguage` throws; the handler then maps no request
        return;
      }
      var reply := InvokeFor(requests, invoke);
      match reply {
        case InvokeError =>
          results := FallBackToTexts(requests);
        case InvokeData(None) =>
        case InvokeData(Some(translations)) =>
          results, toCache := TakeTranslations(requests, translations);
      }
    }

    /** The `catch` branch: every request is answered with its own text. */
    static method FallBackToTexts(requests: seq<Request>) returns (results: map<string, string>)
      ensures results == ApiResultsUpTo(requests, InvokeError, |requests|)
    {
      results := map[];
      for i := 0 to |requests|
        invariant results == ApiResultsUpTo(requests, InvokeError, i)
      {
        results := results[Key(requests[i]) := requests[i].text];
      }
    }

    /**
     * The `forEach` over a reply with translations: request `i` gets
     * `translations[i]`, or its own text when that is missing or empty, and
     * each pair is queued for the cache.
     */
    static method TakeTranslations(requests: seq<Request>, translations: seq<string>)
      returns (results: map<string, string>, toCache: seq<Row>)
      ensures results == ApiResultsUpTo(requests, InvokeData(Some(translations)), |requests|)
      ensures toCache == RowsToSave(requests, InvokeData(Some(translations)))
    {
      ghost var reply := InvokeData(Some(translations));
      results, toCache := map[], [];
      for i := 0 to |requests|
        invariant results == ApiResultsUpTo(requests, reply, i)
        invariant |toCache| == i
        invariant forall j :: 0 <= j < i ==>
          toCache[j] == Row(requests[j].text, requests[j].fromLanguage, requests[j].toLanguage, ApiText(requests, reply, j))
      {
        var req := requests[i];
        var translatedText := if i < |translations| && translations[i] != "" then translations[i] else req.text;
        assert translatedText == ApiText(requests, reply, i);
        results := results[Key(req) := translatedText];
        toCache := toCache + [Row(req.text, req.fromLanguage, req.toLanguage, translatedText)];
      }
      assert toCache == RowsToSave(requests, reply);
    }

    /**
     * `processBatch`: drains the batch, groups the requests by language pair
     * and answers each of them once, with the text `AnswerFor` gives it.
     */
    method ProcessBatch(lookup: CacheLookup, invoke: TranslateInvoke) returns (answers: map<string, string>)
      requires KeyedBatch(pendingOrder, pendingBatch)
      modifies this
      ensures pendingBatch == map[] && pendingOrder == [] && timerArmed == old(timerArmed)
      ensures answers.Keys == old(pendingBatch).Keys
      ensures forall k :: k in answers ==>
        answers[k] == AnswerFor(RequestsOf(old(pendingOrder), old(pendingBatch)), old(pendingBatch)[k], lookup, invoke)
    {
      answers := map[];
      EmptyBatchHasNoOrder(pendingOrder, pendingBatch);
      if |pendingBatch| == 0 {
        return;
      }
      var order, batch := pendingOrder, pendingBatch;
      pendingBatch, pendingOrder := map[], [];
      answers := AnswerAll(order, batch, lookup, invoke);
    }

    /**
     * `translateText`: a trivial request is answered at once with its own
     * text; any other is awaited under its cache key, joining the pending
     * request with that key or being added to the batch. Adding the tenth
     * request flushes the batch at once (its answers are `delivered`);
     * otherwise the flush timer is restarted.
     */
    method TranslateText(text: string, fromLanguage: string, toLanguage: string,
                         lookup: CacheLookup, invoke: TranslateInvoke)
      returns (answer: Answer, delivered: map<string, string>)
      requires Valid()
      modifies this
      ensures Valid()
      ensures IsTrivial(text, fromLanguage, toLanguage) ==>
        answer == Immediate(text) && delivered == map[]
        && pendingBatch == old(pendingBatch) && pendingOrder == old(pendingOrder) && timerArmed == old(timerArmed)
      ensures !IsTrivial(text, fromLanguage, toLanguage) ==> answer == Awaiting(CacheKey(text, fromLanguage, toLanguage))
      // an awaited key is either still pending or answered by this very call
      ensures answer.Awaiting? ==> (answer.key in pendingBatch) != (answer.key in delivered)
      ensures !IsTrivial(text, fromLanguage, toLanguage) && CacheKey(text, fromLanguage, toLanguage) in old(pendingBatch) ==>
        delivered == map[]
        && pendingBatch == old(pendingBatch) && pendingOrder == old(pendingOrder) && timerArmed == old(timerArmed)
      ensures var key := CacheKey(text, fromLanguage, toLanguage);
        !IsTrivial(text, fromLanguage, toLanguage) && key !in old(pendingBatch) && |old(pendingBatch)| + 1 < MaxBatchSize ==>
        delivered == map[] && timerArmed
        && pendingBatch == old(pendingBatch)[key := Request(text, fromLanguage, toLanguage)]
        && pendingOrder == old(pendingOrder) + [key]
      ensures var key := CacheKey(text, fromLanguage, toLanguage);
        var full := old(pendingBatch)[key := Request(text, fromLanguage, toLanguage)];
        !IsTrivial(text, fromLanguage, toLanguage) && key !in old(pendingBatch) && |old(pendingBatch)| + 1 == MaxBatchSize ==>
        pendingBatch == map[] && pendingOrder == [] && !timerArmed
        && delivered.Keys == full.Keys
        && forall k :: k in delivered ==>
          delivered[k] == AnswerFor(RequestsOf(old(pendingOrder) + [key], full), full[k], lookup, invoke)
    {
      delivered := map[];
      if IsTrivial(text, fromLanguage, toLanguage) {
        return Immediate(text), delivered;
      }
      var key := CacheKey(text, fromLanguage, toLanguage);
      answer := Awaiting(key);
      if key in pendingBatch {
        return;
      }
      var req := Request(text, fromLanguage, toLanguage);
      KeyedBatchAdd(pendingOrder, pendingBatch, req);
      pendingBatch := pendingBatch[key := req];
      pendingOrder := pendingOrder + [key];
      // `clearTimeout`: the timer scheduled for the previous request no longer fires
      timerArmed := false;
      if |pendingBatch| >= MaxBatchSize {
        delivered := ProcessBatch(lookup, invoke);
      } else {
        timerArmed := true;
      }
    }

    /** The flush timer fires: the whole pending batch is processed and the timer is cleared. */
    method Flush(lookup: CacheLookup, invoke: TranslateInvoke) returns (delivered: map<string, string>)
      requires Valid() && timerArmed
      modifies this
      ensures Valid() && pendingBatch == map[] && pendingOrder == [] && !timerArmed
      ensures delivered.Keys == old(pendingBatch).Keys
      ensures forall k :: k in delivered ==>
        delivered[k] == AnswerFor(RequestsOf(old(pendingOrder), old(pendingBatch)), old(pendingBatch)[k], lookup, invoke)
    {
      delivered := ProcessBatch(lookup, invoke);
      timerArmed := false;
    }
  }

  /** Adding a request under its own, new key keeps a batch keyed. */
  lemma KeyedBatchAdd(order: seq<string>, batch: map<string, Request>, r: Request)
    requires KeyedBatch(order, batch) && Key(r) !in batch
    ensures KeyedBatch(order + [Key(r)], batch[Key(r) := r])
    ensures |batch[Key(r) := r]| == |batch| + 1
  {
    var order' := order + [Key(r)];
    forall i, j | 0 <= i < j < |order'| ensures order'[i] != order'[j] {
      if j == |order| {
        assert order[i] in batch;
      }
    }
  }

  /**
   * The body of `processBatch` after the batch is drained: the requests are
   * grouped by language pair and each group is looked up, translated and
   * dispatched.
   */
  method AnswerAll(order: seq<string>, batch: map<string, Request>, lookup: CacheLookup, invoke: TranslateInvoke)
    returns (answers: map<string, string>)
    requires KeyedBatch(order, batch)
    ensures answers.Keys == batch.Keys
    ensures forall k {:trigger AnswerFor(RequestsOf(order, batch), batch[k], lookup, invoke)} ::
      k in answers ==> answers[k] == AnswerFor(RequestsOf(order, batch), batch[k], lookup, invoke)
  {
    answers := map[];
    var requests := RequestsOf(order, batch);
    RequestsOfByKey(order, batch);
    ghost var answerOf := r => AnswerFor(requests, r, lookup, invoke);
    var pairKeys, groups := GroupBy(requests, PairKey);
    for i := 0 to |pairKeys|
      invariant answers.Keys <= batch.Keys
      invariant forall k {:trigger answerOf(batch[k])} :: k in answers ==> answers[k] == answerOf(batch[k])
      invariant forall r :: r in requests && PairKey(r) in pairKeys[..i] ==> Key(r) in answers
    {
      assert pairKeys[..i + 1] == pairKeys[..i] + [pairKeys[i]];
      var pairRequests := groups[pairKeys[i]];
      var cachedTranslations := CachedTranslations(pairRequests, lookup);
      var uncachedRequests := Uncached(pairRequests, cachedTranslations);
      if |uncachedRequests| > 0 {
        var newTranslations, _ := EnhancedTranslationService.BatchTranslateWithAPI(uncachedRequests, invoke);
        cachedTranslations := cachedTranslations + newTranslations;
      }
      GroupIsSelect(requests, pairKeys[i], pairRequests);
      GroupMembers(requests, pairRequests);
      forall r {:trigger answerOf(r)} | r in pairRequests ensures answerOf(r) == Resolve(cachedTranslations, r) {
        ResolveInGroup(requests, pairRequests, r, lookup, invoke);
      }
      answers := Dispatch(batch, pairRequests, cachedTranslations, answers, answerOf);
      forall r | r in requests && PairKey(r) in pairKeys[..i + 1] ensures Key(r) in answers {
        SelectMembers(requests, PairKey, pairKeys[i], r);
      }
    }
    assert pairKeys[..|pairKeys|] == pairKeys;
    forall k | k in batch ensures k in answers {
      assert batch[k] in requests;
    }
    forall k {:trigger AnswerFor(requests, batch[k], lookup, invoke)} | k in answers
      ensures answers[k] == AnswerFor(requests, batch[k], lookup, invoke)
    {
      assert answers[k] == answerOf(batch[k]);
    }
  }

  /**
   * The dispatch loop of one group: every request of the group is answered
   * with its merged translation, or its own text when that is missing or
   * empty; `answerOf` is the answer each request is owed.
   */
  method Dispatch(ghost batch: map<string, Request>, pairRequests: seq<Request>,
                  cachedTranslations: map<string, string>, answers0: map<string, string>,
                  ghost answerOf: Request -> string)
    returns (answers: map<string, string>)
    requires forall r :: r in pairRequests ==> Key(r) in batch && batch[Key(r)] == r
    requires forall r {:trigger answerOf(r)} :: r in pairRequests ==> answerOf(r) == Resolve(cachedTranslations, r)
    requires answers0.Keys <= batch.Keys
    requires forall k {:trigger answerOf(batch[k])} :: k in answers0 ==> answers0[k] == answerOf(batch[k])
    ensures answers.Keys <= batch.Keys && answers0.Keys <= answers.Keys
    ensures forall k {:trigger answerOf(batch[k])} :: k in answers ==> answers[k] == answerOf(batch[k])
    ensures forall r :: r in pairRequests ==> Key(r) in answers
  {
    answers := answers0;
    for j := 0 to |pairRequests|
      invariant answers.Keys <= batch.Keys && answers0.Keys <= answers.Keys
      invariant forall k {:trigger answerOf(batch[k])} :: k in answers ==> answers[k] == answerOf(batch[k])
      invariant forall jj :: 0 <= jj < j ==> Key(pairRequests[jj]) in answers
    {
      var req := pairRequests[j];
      var key := Key(req);
      var translatedText := Resolve(cachedTranslations, req);
      answers := answers[key := translatedText];
    }
  }

  /** A non-empty selection by pair key is the group of its first member. */
  lemma GroupIsSelect(requests: seq<Request>, pairKey: string, group: seq<Request>)
    requires group == Select(requests, PairKey, pairKey) && group != []
    ensures group == GroupOf(requests, group[0])
  {
  }

  /** The requests of a group are the batch's requests with the group's language pair. */
  lemma GroupMembers(requests: seq<Request>, group: seq<Request>)
    requires group != [] && group == GroupOf(requests, group[0])
    ensures forall r :: r in group <==> r in requests && PairKey(r) == PairKey(group[0])
  {
    forall r ensures r in group <==> r in requests && PairKey(r) == PairKey(group[0]) {
      SelectMembers(requests, PairKey, PairKey(group[0]), r);
    }
  }

  /** Within a group, resolving against the group's merged map is the request's answer. */
  lemma ResolveInGroup(requests: seq<Request>, group: seq<Request>, r: Request, lookup: CacheLookup, invoke: TranslateInvoke)
    requires group != [] && group == GroupOf(requests, group[0]) && r in group
    ensures Resolve(Merged(group, lookup, invoke), r) == AnswerFor(requests, r, lookup, invoke)
  {
    GroupMembers(requests, group);
  }

  /** Every entry of the API results belongs to one of the requests, with that request's API text. */
  lemma {:induction false} ApiResultsEntry(reqs: seq<Request>, reply: InvokeReply, n: nat, k: string)
    requires n <= |reqs| && k in ApiResultsUpTo(reqs, reply, n)
    ensures exists i :: 0 <= i < n && Key(reqs[i]) == k && ApiResultsUpTo(reqs, reply, n)[k] == ApiText(reqs, reply, i)
  {
    var prev := ApiResultsUpTo(reqs, reply, n - 1);
    if Key(reqs[n - 1]) != k {
      ApiResultsEntry(reqs, reply, n - 1, k);
    }
  }

  /** No two requests share a cache key. */
  ghost predicate UniqueKeys(reqs: seq<Request>) {
    forall i, j :: 0 <= i < j < |reqs| ==> Key(reqs[i]) != Key(reqs[j])
  }

  /**
   * With distinct keys and a reply that carries results, request `i` is
   * found under its key with the text at its own index.
   */
  lemma {:induction false} ApiResultsAt(reqs: seq<Request>, reply: InvokeReply, n: nat, i: nat)
    requires UniqueKeys(reqs) && reply != InvokeData(None) && i < n <= |reqs|
    ensures Key(reqs[i]) in ApiResultsUpTo(reqs, reply, n)
    ensures ApiResultsUpTo(reqs, reply, n)[Key(reqs[i])] == ApiText(reqs, reply, i)
  {
    var prev := ApiResultsUpTo(reqs, reply, n - 1);
    assert ApiResultsUpTo(reqs, reply, n) == prev[Key(reqs[n - 1]) := ApiText(reqs, reply, n - 1)];
    if i < n - 1 {
      ApiResultsAt(reqs, reply, n - 1, i);
      assert Key(reqs[i]) != Key(reqs[n - 1]);
    }
  }

  /** The API step answers nothing that the cache already answered. */
  lemma ApiResultsMissCache(group: seq<Request>, cached: map<string, string>, reply: InvokeReply, k: string)
    requires k in ApiResults(Uncached(group, cached), reply)
    ensures k !in cached
  {
    var u := Uncached(group, cached);
    ApiResultsEntry(u, reply, |u|, k);
    var i :| 0 <= i < |u| && Key(u[i]) == k && ApiResults(u, reply)[k] == ApiText(u, reply, i);
    UncachedMembers(group, cached);
  }

  /** A non-empty cached translation is the answer, whatever the translate function says. */
  lemma CachedAnswerWins(requests: seq<Request>, r: Request, lookup: CacheLookup, invoke: TranslateInvoke)
    requires Key(r) in CachedTranslations(GroupOf(requests, r), lookup)
    requires CachedTranslations(GroupOf(requests, r), lookup)[Key(r)] != ""
    ensures AnswerFor(requests, r, lookup, invoke) == CachedTranslations(GroupOf(requests, r), lookup)[Key(r)]
  {
    var group := GroupOf(requests, r);
    var cached := CachedTranslations(group, lookup);
    var u := Uncached(group, cached);
    if u != [] && Key(r) in ApiResults(u, InvokeFor(u, invoke)) {
      ApiResultsMissCache(group, cached, InvokeFor(u, invoke), Key(r));
    }
  }

  /** A group whose every request is cached makes no invocation: its answers come from the cache alone. */
  lemma AllCachedMakesNoApiCall(requests: seq<Request>, r: Request, lookup: CacheLookup, invoke: TranslateInvoke)
    requires forall q :: q in GroupOf(requests, r) ==> Key(q) in CachedTranslations(GroupOf(requests, r), lookup)
    ensures Uncached(GroupOf(requests, r), CachedTranslations(GroupOf(requests, r), lookup)) == []
    ensures AnswerFor(requests, r, lookup, invoke) == Resolve(CachedTranslations(GroupOf(requests, r), lookup), r)
  {
    NothingUncached(GroupOf(requests, r), CachedTranslations(GroupOf(requests, r), lookup));
  }

  /** When the cache holds every key, no request is left for the API. */
  lemma {:induction false} NothingUncached(reqs: seq<Request>, cached: map<string, string>)
    requires forall q :: q in reqs ==> Key(q) in cached
    ensures Uncached(reqs, cached) == []
  {
    if reqs != [] {
      assert reqs[0] in reqs;
      NothingUncached(reqs[1..], cached);
    }
  }

  /** The reply gives every request its own text back (an error, no `translations`, or an echo). */
  ghost predicate Untranslated(reqs: seq<Request>, reply: InvokeReply) {
    forall i :: 0 <= i < |reqs| ==> ApiText(reqs, reply, i) == reqs[i].text
  }

  /**
   * When the translate function translates nothing for a group, each request
   * gets its non-empty cached translation or else its own text.
   */
  lemma FallbackAnswer(requests: seq<Request>, r: Request, lookup: CacheLookup, invoke: TranslateInvoke)
    requires var u := Uncached(GroupOf(requests, r), CachedTranslations(GroupOf(requests, r), lookup));
      u != [] ==> Untranslated(u, InvokeFor(u, invoke))
    ensures AnswerFor(requests, r, lookup, invoke) == Resolve(CachedTranslations(GroupOf(requests, r), lookup), r)
  {
    var group := GroupOf(requests, r);
    var cached := CachedTranslations(group, lookup);
    var u := Uncached(group, cached);
    if u != [] {
      var reply := InvokeFor(u, invoke);
      var api := ApiResults(u, reply);
      if Key(r) in api {
        ApiResultsMissCache(group, cached, reply, Key(r));
        var q := UntranslatedEntry(u, reply, Key(r));
        UncachedMembers(group, cached);
        SameKeyInGroup(requests, r, q);
      }
      assert Merged(group, lookup, invoke) == cached + api;
    }
  }

  /** An entry of an untranslated reply's results is the own text of a request with that key. */
  lemma UntranslatedEntry(u: seq<Request>, reply: InvokeReply, k: string) returns (q: Request)
    requires Untranslated(u, reply) && k in ApiResults(u, reply)
    ensures q in u && Key(q) == k && ApiResults(u, reply)[k] == q.text
  {
    ApiResultsEntry(u, reply, |u|, k);
    var i :| 0 <= i < |u| && Key(u[i]) == k && ApiResults(u, reply)[k] == ApiText(u, reply, i);
    q := u[i];
  }

  /** Within one language-pair group, a cache key determines the text. */
  lemma SameKeyInGroup(requests: seq<Request>, r: Request, q: Request)
    requires q in GroupOf(requests, r) && Key(q) == Key(r)
    ensures q.text == r.text
  {
    SelectMembers(requests, PairKey, PairKey(r), q);
    KeyExtendsPairKey(q);
    KeyExtendsPairKey(r);
    var s := Key(r);
    assert s[|s| - |r.text|..] == r.text;
    assert s[|s| - |q.text|..] == q.text;
  }

  /** When every invocation reports an error, every request is answered from the cache or with its own text. */
  lemma ApiErrorFallsBack(requests: seq<Request>, r: Request, lookup: CacheLookup, invoke: TranslateInvoke)
    requires forall texts, fromLanguage, toLanguage :: invoke(texts, fromLanguage, toLanguage) == InvokeError
    ensures AnswerFor(requests, r, lookup, invoke) == Resolve(CachedTranslations(GroupOf(requests, r), lookup), r)
  {
    var u := Uncached(GroupOf(requests, r), CachedTranslations(GroupOf(requests, r), lookup));
    if u != [] {
      assert InvokeFor(u, invoke) == InvokeError;
    }
    FallbackAnswer(requests, r, lookup, invoke);
  }

  /** How the client reads the `translate` function's HTTP reply. */
  function ClientReply(reply: TranslateFunction.Reply): (c: InvokeReply)
    ensures c == InvokeError <==> reply.Failure?
    ensures c.InvokeData? && c.translations.Some? <==> reply.Translations?
  {
    match reply
    case Failure(_, _) => InvokeError
    case Translations(ts) => InvokeData(Some(ts))
    case _ => InvokeData(None)
  }

  /**
   * The invocation as the deployed `translate` function answers it: the
   * batch body `{texts, fromLanguage, toLanguage}`, handled with the given
   * key configuration and model outcome.
   */
  function EdgeInvoke(hasApiKey: bool, upstream: (seq<string>, string, string) -> TranslateFunction.Upstream): TranslateInvoke {
    (texts, fromLanguage, toLanguage) =>
      ClientReply(TranslateFunction.Handle(false, hasApiKey,
        Some(TranslateFunction.Body(Some(texts), None, fromLanguage, toLanguage)),
        upstream(texts, fromLanguage, toLanguage)).reply)
  }

  /**
   * A group with a single uncached request is never translated: the function
   * answers a one-text batch with `translatedText`, which the client does not
   * read, so the request gets its cached translation or its own text.
   */
  lemma SingleUncachedRequestIsNeverTranslated(requests: seq<Request>, r: Request, lookup: CacheLookup,
                                               hasApiKey: bool, upstream: (seq<string>, string, string) -> TranslateFunction.Upstream)
    requires |Uncached(GroupOf(requests, r), CachedTranslations(GroupOf(requests, r), lookup))| == 1
    ensures AnswerFor(requests, r, lookup, EdgeInvoke(hasApiKey, upstream))
      == Resolve(CachedTranslations(GroupOf(requests, r), lookup), r)
  {
    var invoke := EdgeInvoke(hasApiKey, upstream);
    var u := Uncached(GroupOf(requests, r), CachedTranslations(GroupOf(requests, r), lookup));
    var reply := InvokeFor(u, invoke);
    var body := TranslateFunction.Body(Some([u[0].text]), None, u[0].fromLanguage, u[0].toLanguage);
    assert Texts(u) == [u[0].text];
    assert reply == ClientReply(TranslateFunction.Handle(false, hasApiKey, Some(body),
      upstream([u[0].text], u[0].fromLanguage, u[0].toLanguage)).reply);
    assert reply == InvokeError || reply == InvokeData(None) || reply == InvokeData(Some([u[0].text]));
    FallbackAnswer(requests, r, lookup, invoke);
  }

  /** Several texts in a batch with a completed model call get one translation each from the client's view. */
  lemma ManyTextsGetOneTranslationEach(texts: seq<string>, fromLanguage: string, toLanguage: string,
                                       upstream: (seq<string>, string, string) -> TranslateFunction.Upstream)
    requires |texts| > 1 && fromLanguage != "" && toLanguage != "" && fromLanguage != toLanguage
    requires upstream(texts, fromLanguage, toLanguage).Completion?
    ensures var c := EdgeInvoke(true, upstream)(texts, fromLanguage, toLanguage);
      c.InvokeData? && c.translations.Some? && |c.translations.value| == |texts|
  {
  }

  /** A reply that echoes the texts makes every text its own translation. */
  lemma EchoedTextsCacheThemselves(u: seq<Request>)
    requires u != []
    ensures var rows := RowsToSave(u, InvokeData(Some(Texts(u))));
      |rows| == |u| && forall i :: 0 <= i < |u| ==> rows[i] == Row(u[i].text, u[i].fromLanguage, u[i].toLanguage, u[i].text)
  {
  }

  /**
   * When the model call fails the function still replies with the texts, so
   * the client reads them as translations and queues each text as its own
   * translation for the cache (a later lookup then serves it, `CachedAnswerWins`).
   */
  lemma FailedModelCallCachesTexts(u: seq<Request>, upstream: (seq<string>, string, string) -> TranslateFunction.Upstream)
    requires u != [] && u[0].fromLanguage != "" && u[0].toLanguage != ""
    requires upstream(Texts(u), u[0].fromLanguage, u[0].toLanguage).NotOk?
    ensures InvokeFor(u, EdgeInvoke(true, upstream)) == InvokeData(Some(Texts(u)))
    ensures var rows := RowsToSave(u, InvokeFor(u, EdgeInvoke(true, upstream)));
      |rows| == |u| && forall i :: 0 <= i < |u| ==> rows[i] == Row(u[i].text, u[i].fromLanguage, u[i].toLanguage, u[i].text)
  {
    var texts := Texts(u);
    var body := TranslateFunction.Body(Some(texts), None, u[0].fromLanguage, u[0].toLanguage);
    var out := TranslateFunction.Handle(false, true, Some(body), upstream(texts, u[0].fromLanguage, u[0].toLanguage));
    assert InvokeFor(u, EdgeInvoke(true, upstream)) == ClientReply(out.reply);
    assert out.reply == TranslateFunction.Translations(texts);
    EchoedTextsCacheThemselves(u);
  }

  /** A batch's drained requests carry pairwise different cache keys. */
  lemma DrainedKeysUnique(order: seq<string>, batch: map<string, Request>)
    requires KeyedBatch(order, batch)
    ensures UniqueKeys(RequestsOf(order, batch))
  {
    var reqs := RequestsOf(order, batch);
    forall i, j | 0 <= i < j < |reqs|
      ensures Key(reqs[i]) != Key(reqs[j])
    {
      assert order[i] in batch && order[j] in batch;
      assert Key(reqs[i]) == order[i] && Key(reqs[j]) == order[j];
    }
  }

  /** Requests picked out of a list in order keep the list's distinct keys. */
  lemma EmbedsKeepUniqueKeys(sub: seq<Request>, reqs: seq<Request>, idx: seq<nat>)
    requires UniqueKeys(reqs) && Embeds(sub, reqs, idx)
    ensures UniqueKeys(sub)
  {
    forall i, j | 0 <= i < j < |sub|
      ensures Key(sub[i]) != Key(sub[j])
    {
      assert sub[i] == reqs[idx[i]] && sub[j] == reqs[idx[j]] && idx[i] < idx[j];
    }
  }

  /** The cache misses are requests of the group, in group order. */
  lemma {:induction false} UncachedPositions(reqs: seq<Request>, cached: map<string, string>) returns (idx: seq<nat>)
    ensures Embeds(Uncached(reqs, cached), reqs, idx)
  {
    if reqs == [] {
      return [];
    }
    var rest := Uncached(reqs[1..], cached);
    var tail := UncachedPositions(reqs[1..], cached);
    idx := EmbedsCons(rest, reqs[1..], tail, reqs[0], Key(reqs[0]) !in cached);
    assert [reqs[0]] + reqs[1..] == reqs;
    if Key(reqs[0]) !in cached {
      assert Uncached(reqs, cached) == [reqs[0]] + rest;
    } else {
      assert Uncached(reqs, cached) == [] + rest == rest;
    }
  }

  /**
   * An invocation never carries the same key twice: the cache misses of any
   * language-pair group of a drained batch have distinct keys.
   */
  lemma InvocationKeysUnique(order: seq<string>, batch: map<string, Request>, r: Request, cached: map<string, string>)
    requires KeyedBatch(order, batch)
    ensures UniqueKeys(Uncached(GroupOf(RequestsOf(order, batch), r), cached))
  {
    var reqs := RequestsOf(order, batch);
    DrainedKeysUnique(order, batch);
    var group := GroupOf(reqs, r);
    var groupIdx := SelectPositions(reqs, PairKey, PairKey(r));
    EmbedsKeepUniqueKeys(group, reqs, groupIdx);
    var missIdx := UncachedPositions(group, cached);
    EmbedsKeepUniqueKeys(Uncached(group, cached), group, missIdx);
  }

  /**
   * The success path: when request `r` is the `i`-th cache miss of its group
   * and the reply's `translations[i]` is non-empty, that translation is `r`'s answer.
   */
  lemma ApiTranslationIsAnswer(requests: seq<Request>, r: Request, lookup: CacheLookup, invoke: TranslateInvoke, i: nat)
    requires var u := Uncached(GroupOf(requests, r), CachedTranslations(GroupOf(requests, r), lookup));
      && i < |u| && u[i] == r && UniqueKeys(u)
      && InvokeFor(u, invoke).InvokeData? && InvokeFor(u, invoke).translations.Some?
      && i < |InvokeFor(u, invoke).translations.value| && InvokeFor(u, invoke).translations.value[i] != ""
    ensures var u := Uncached(GroupOf(requests, r), CachedTranslations(GroupOf(requests, r), lookup));
      AnswerFor(requests, r, lookup, invoke) == InvokeFor(u, invoke).translations.value[i]
  {
    var group := GroupOf(requests, r);
    var cached := CachedTranslations(group, lookup);
    var u := Uncached(group, cached);
    var reply := InvokeFor(u, invoke);
    ApiResultsAt(u, reply, |u|, i);
    assert Merged(group, lookup, invoke) == cached + ApiResults(u, reply);
  }

  /** For a drained batch the success path needs no further hypothesis: every translated miss gets its translation. */
  lemma DrainedRequestGetsItsTranslation(order: seq<string>, batch: map<string, Request>, r: Request,
                                         lookup: CacheLookup, invoke: TranslateInvoke, i: nat)
    requires KeyedBatch(order, batch)
    requires var requests := RequestsOf(order, batch);
      var u := Uncached(GroupOf(requests, r), CachedTranslations(GroupOf(requests, r), lookup));
      && i < |u| && u[i] == r
      && InvokeFor(u, invoke).InvokeData? && InvokeFor(u, invoke).translations.Some?
      && i < |InvokeFor(u, invoke).translations.value| && InvokeFor(u, invoke).translations.value[i] != ""
    ensures var requests := RequestsOf(order, batch);
      var u := Uncached(GroupOf(requests, r), CachedTranslations(GroupOf(requests, r), lookup));
      AnswerFor(requests, r, lookup, invoke) == InvokeFor(u, invoke).translations.value[i]
  {
    var requests := RequestsOf(order, batch);
    InvocationKeysUnique(order, batch, r, CachedTranslations(GroupOf(requests, r), lookup));
    ApiTranslationIsAnswer(requests, r, lookup, invoke, i);
  }
}
