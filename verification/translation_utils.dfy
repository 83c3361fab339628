/**
 * `getTranslatedContent`: picks the title and content of a record in the
 * interface language, each falling back on its own to the default field when
 * the translated one is missing or empty.
 */
module TranslatedContent {
  import opened Wrappers
  import opened TranslationKeys

  /**
   * A record with a default `title` and `content` and the optional
   * translated properties (`title_fr`, `content_pt_br`, …) that are present.
   */
  datatype TranslatableContent = TranslatableContent(title: string, content: string, translated: map<string, string>)

  datatype Localized = Localized(title: string, content: string)

  /** The property suffix of an interface language, if it has one. */
  function Suffix(language: string): (suffix: Option<string>)
    ensures suffix.Some? <==> language in KnownCodes
    ensures suffix.Some? ==> suffix.value != ""
  {
    match language
    case "en" => Some("en")
    case "fr" => Some("fr")
    case "pt-PT" => Some("pt_pt")
    case "pt-BR" => Some("pt_br")
    case _ => None
  }

  /** The property `<prefix>_<suffix>` of the record, if present. */
  function Property(c: TranslatableContent, prefix: string, suffix: string): Option<string> {
    var name := prefix + "_" + suffix;
    if name in c.translated then Some(c.translated[name]) else None
  }

  /** JavaScript `value || fallback` on an optional string. */
  function OrElse(value: Option<string>, fallback: string): (r: string)
    ensures value.Some? && value.value != "" ==> r == value.value
    ensures value.None? || value.value == "" ==> r == fallback
  {
    if value.Some? && value.value != "" then value.value else fallback
  }

  /** The translated value of field `prefix` for `language`: absent when the language has no suffix. */
  function TranslatedField(c: TranslatableContent, prefix: string, language: string): Option<string> {
    match Suffix(language)
    case None => None
    case Some(suffix) => Property(c, prefix, suffix)
  }

  function GetTranslatedContent(c: TranslatableContent, language: string): (r: Localized)
    // an unmapped language gets the defaults
    ensures language !in KnownCodes ==> r == Localized(c.title, c.content)
    // each field is its non-empty translation, or else its default
    ensures var t := TranslatedField(c, "title", language);
      if t.Some? && t.value != "" then r.title == t.value else r.title == c.title
    ensures var t := TranslatedField(c, "content", language);
      if t.Some? && t.value != "" then r.content == t.value else r.content == c.content
  {
    match Suffix(language)
    case Some(suffix) =>
      Localized(OrElse(Property(c, "title", suffix), c.title), OrElse(Property(c, "content", suffix), c.content))
    case None =>
      Localized(c.title, c.content)
  }

  /** A title property and a content property never share a name. */
  lemma PropertyNamesDiffer(s1: string, s2: string)
    ensures "title_" + s1 != "content_" + s2
  {
    assert ("title_" + s1)[0] == 't';
    assert ("content_" + s2)[0] == 'c';
  }

  /** Setting a translated title leaves the selected content as it was: the fields fall back independently. */
  lemma ContentIgnoresTitleProperty(c: TranslatableContent, language: string, suffix: string, value: string)
    requires Suffix(language) == Some(suffix)
    ensures var c' := c.(translated := c.translated["title_" + suffix := value]);
      GetTranslatedContent(c', language).content == GetTranslatedContent(c, language).content
  {
    PropertyNamesDiffer(suffix, suffix);
    assert "content" + "_" + suffix == "content_" + suffix;
    assert "title" + "_" + suffix == "title_" + suffix;
  }

  /** Setting a translated content leaves the selected title as it was. */
  lemma TitleIgnoresContentProperty(c: TranslatableContent, language: string, suffix: string, value: string)
    requires Suffix(language) == Some(suffix)
    ensures var c' := c.(translated := c.translated["content_" + suffix := value]);
      GetTranslatedContent(c', language).title == GetTranslatedContent(c, language).title
  {
    PropertyNamesDiffer(suffix, suffix);
    assert "content" + "_" + suffix == "content_" + suffix;
    assert "title" + "_" + suffix == "title_" + suffix;
  }

  /** The four interface languages read four different properties. */
  lemma SuffixesDistinct(a: string, b: string)
    requires a in KnownCodes && b in KnownCodes && a != b
    ensures Suffix(a) != Suffix(b)
  {
  }
}
