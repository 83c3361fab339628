/**
 * What both translation services share: a translation request, its cache key
 * `from-to-text`, the language-pair key `from-to`, and the mapping from an
 * interface language code to the language name sent to the translator.
 */
module TranslationKeys {

  /** A request to translate `text` from one language to another. */
  datatype Request = Request(text: string, fromLanguage: string, toLanguage: string)

  /** `getCacheKey`: the template `${fromLang}-${toLang}-${text}`. */
  function CacheKey(text: string, fromLang: string, toLang: string): (k: string)
    // the three parts and the two dashes, nothing dropped
    ensures |k| == |fromLang| + |toLang| + |text| + 2
  {
    fromLang + "-" + toLang + "-" + text
  }

  function Key(r: Request): string {
    CacheKey(r.text, r.fromLanguage, r.toLanguage)
  }

  /** The language-pair key `${fromLanguage}-${toLanguage}` that batches are grouped by. */
  function PairKey(r: Request): string {
    r.fromLanguage + "-" + r.toLanguage
  }

  /** A request's cache key extends its pair key by a dash and the text. */
  lemma KeyExtendsPairKey(r: Request)
    ensures Key(r) == PairKey(r) + "-" + r.text
  {
  }

  /** The interface language codes the application ships. */
  const KnownCodes: seq<string> := ["en", "fr", "pt-BR", "pt-PT"]

  /** `getLanguageName`: the four known codes have a name; everything else reads as English. */
  function LanguageName(code: string): (name: string)
    ensures code !in KnownCodes[1..] ==> name == "English"
    ensures '-' !in name
  {
    match code
    case "fr" => "French"
    case "pt-BR" => "Portuguese (Brazil)"
    case "pt-PT" => "Portuguese (Portugal)"
    case _ => "English"
  }

  /** Distinct known codes get distinct names, so no two shipped languages are confused. */
  lemma LanguageNameInjectiveOnKnown(a: string, b: string)
    requires a in KnownCodes && b in KnownCodes && a != b
    ensures LanguageName(a) != LanguageName(b)
  {
  }

  lemma FirstDash(a: string, r: string, i: nat)
    requires '-' !in a && i <= |a| && (a + "-" + r)[i] == '-'
    ensures i == |a|
  {
    assert forall j :: 0 <= j < |a| ==> (a + "-" + r)[j] == a[j];
  }

  /** In `a + "-" + r` with a dash-free `a`, the first dash sits right after `a`. */
  lemma {:induction false} DashSplitUnique(a1: string, r1: string, a2: string, r2: string)
    requires '-' !in a1 && '-' !in a2
    requires a1 + "-" + r1 == a2 + "-" + r2
    ensures a1 == a2 && r1 == r2
  {
    var s := a1 + "-" + r1;
    if |a1| <= |a2| {
      FirstDash(a2, r2, |a1|);
    } else {
      FirstDash(a1, r1, |a2|);
    }
    assert a1 == s[..|a1|] == a2;
    assert r1 == s[|a1| + 1..] == r2;
  }

  /**
   * When the language strings contain no dash (true of every name
   * `LanguageName` produces), the cache key determines the request.
   */
  lemma CacheKeyInjective(r1: Request, r2: Request)
    requires '-' !in r1.fromLanguage && '-' !in r1.toLanguage
    requires '-' !in r2.fromLanguage && '-' !in r2.toLanguage
    requires Key(r1) == Key(r2)
    ensures r1 == r2
  {
    assert Key(r1) == r1.fromLanguage + "-" + (r1.toLanguage + "-" + r1.text);
    assert Key(r2) == r2.fromLanguage + "-" + (r2.toLanguage + "-" + r2.text);
    DashSplitUnique(r1.fromLanguage, r1.toLanguage + "-" + r1.text, r2.fromLanguage, r2.toLanguage + "-" + r2.text);
    DashSplitUnique(r1.toLanguage, r1.text, r2.toLanguage, r2.text);
  }

  /** With dashes in the language strings two different requests can share a key. */
  lemma CacheKeyCollision()
    ensures Request("x", "pt", "BR-en") != Request("x", "pt-BR", "en")
    ensures Key(Request("x", "pt", "BR-en")) == Key(Request("x", "pt-BR", "en"))
  {
  }
}
