/**
 * `TranslationService`: the simple translator with a memo cache. A request
 * in the same language is answered with its own text; a cached key is
 * answered from the cache; otherwise the `translate` function is called
 * for the single text, and only a successful reply is cached.
 *
 * The HTTP call is the `Fetch` parameter. A JavaScript `undefined` read
 * from the reply (`data.translatedText` when absent) is `None`, and it is
 * cached and returned like any other value.
 */
module SimpleTranslation {
  import opened Wrappers
  import opened TranslationKeys
  import TranslateFunction

  /** The outcome of the `fetch` to the `translate` function. */
  datatype FetchReply =
    | FetchFailed                            // a non-OK status, or an exception
    | FetchOk(translatedText: Option<string>) // the `translatedText` property of the JSON reply

  type Fetch = (string, string, string) -> FetchReply

  /** The result of one `translateText` call and the cache after it. */
  datatype Step = Step(result: Option<string>, cache: map<string, Option<string>>, fetched: bool)

  /** One `translateText` call on `cache`, given the reply the fetch would yield. */
  function Translate(cache: map<string, Option<string>>, text: string, fromLanguage: string, toLanguage: string,
                     reply: FetchReply): (s: Step)
    // the function is consulted only for a new key in two different languages
    ensures s.fetched <==> fromLanguage != toLanguage && CacheKey(text, fromLanguage, toLanguage) !in cache
    ensures fromLanguage == toLanguage ==> s.result == Some(text)
    ensures !s.fetched && fromLanguage != toLanguage ==> s.result == cache[CacheKey(text, fromLanguage, toLanguage)]
    // entries are only ever added: nothing is removed or overwritten
    ensures forall k :: k in cache ==> k in s.cache && s.cache[k] == cache[k]
    ensures s.cache.Keys <= cache.Keys + {CacheKey(text, fromLanguage, toLanguage)}
    // a failure answers with the text and caches nothing
    ensures s.fetched && reply.FetchFailed? ==> s.result == Some(text) && s.cache == cache
    // a success is cached under the request's key and returned
    ensures s.fetched && reply.FetchOk? ==>
      s.result == reply.translatedText && s.cache == cache[CacheKey(text, fromLanguage, toLanguage) := s.result]
  {
    if fromLanguage == toLanguage then Step(Some(text), cache, false)
    else
      var key := CacheKey(text, fromLanguage, toLanguage);
      if key in cache then Step(cache[key], cache, false)
      else
        match reply
        case FetchFailed => Step(Some(text), cache, true)
        case FetchOk(t) => Step(t, cache[key := t], true)
  }

  class TranslationService {
    /** Translations by cache key. */
    var cache: map<string, Option<string>>

    constructor ()
      ensures cache == map[]
    {
      cache := map[];
    }

    method TranslateText(text: string, fromLanguage: string, toLanguage: string, fetch: Fetch)
      returns (result: Option<string>)
      modifies this
      ensures var s := Translate(old(cache), text, fromLanguage, toLanguage, fetch(text, fromLanguage, toLanguage));
        result == s.result && cache == s.cache
    {
      if fromLanguage == toLanguage {
        return Some(text);
      }
      var cacheKey := CacheKey(text, fromLanguage, toLanguage);
      if cacheKey in cache {
        return cache[cacheKey];
      }
      var response := fetch(text, fromLanguage, toLanguage);
      match response {
        case FetchFailed =>
          result := Some(text);
        case FetchOk(translatedText) =>
          cache := cache[cacheKey := translatedText];
          result := translatedText;
      }
    }
  }

  /** After a successful call, the same request is answered from the cache with the same value, whatever the network does. */
  lemma RepeatIsServedFromCache(cache: map<string, Option<string>>, text: string, fromLanguage: string, toLanguage: string,
                                first: FetchReply, second: FetchReply)
    requires first.FetchOk?
    ensures var s1 := Translate(cache, text, fromLanguage, toLanguage, first);
      var s2 := Translate(s1.cache, text, fromLanguage, toLanguage, second);
      !s2.fetched && s2.result == s1.result && s2.cache == s1.cache
  {
  }

  /** A failed call leaves the next attempt free to fetch again. */
  lemma FailureIsRetried(cache: map<string, Option<string>>, text: string, fromLanguage: string, toLanguage: string,
                         second: FetchReply)
    requires fromLanguage != toLanguage && CacheKey(text, fromLanguage, toLanguage) !in cache
    ensures var s1 := Translate(cache, text, fromLanguage, toLanguage, FetchFailed);
      Translate(s1.cache, text, fromLanguage, toLanguage, second).fetched
  {
  }

  /** How the service reads the `translate` function's HTTP reply. */
  function ClientReply(reply: TranslateFunction.Reply): (f: FetchReply)
    ensures f.FetchFailed? <==> reply.Failure?
  {
    match reply
    case Failure(_, _) => FetchFailed
    case TranslatedText(t) => FetchOk(t)
    case _ => FetchOk(None)
  }

  /**
   * The fetch as the deployed `translate` function answers it: the body
   * `{text, fromLanguage, toLanguage}`, handled with the given key
   * configuration and model outcome.
   */
  function EdgeFetch(hasApiKey: bool, upstream: (string, string, string) -> TranslateFunction.Upstream): Fetch {
    (text, fromLanguage, toLanguage) =>
      ClientReply(TranslateFunction.Handle(false, hasApiKey,
        Some(TranslateFunction.Body(None, Some(text), fromLanguage, toLanguage)),
        upstream(text, fromLanguage, toLanguage)).reply)
  }

  /**
   * Against the deployed function a successful reply always carries a
   * `translatedText`, so the cache never stores `undefined`.
   */
  lemma EdgeRepliesAreDefined(hasApiKey: bool, upstream: (string, string, string) -> TranslateFunction.Upstream,
                              text: string, fromLanguage: string, toLanguage: string)
    ensures var f := EdgeFetch(hasApiKey, upstream)(text, fromLanguage, toLanguage);
      f.FetchOk? ==> f.translatedText.Some?
  {
    var b := TranslateFunction.Body(None, Some(text), fromLanguage, toLanguage);
    var out := TranslateFunction.Handle(false, hasApiKey, Some(b), upstream(text, fromLanguage, toLanguage));
    assert EdgeFetch(hasApiKey, upstream)(text, fromLanguage, toLanguage) == ClientReply(out.reply);
    assert TranslateFunction.Normalize(b) == TranslateFunction.Single(Some(text));
    assert out.reply.TranslatedText? ==> out.reply.translatedText.Some?;
  }
}
