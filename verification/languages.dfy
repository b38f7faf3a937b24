/** The two display languages of the resume and the switch between them. */
module Languages {
  import opened Wrappers

  /** `'zh' | 'en'`: each language selects one of two parallel content sets. */
  datatype Language = Zh | En

  /** The language code as the `Language` type spells it, used in file names. */
  function Code(lang: Language): string
  {
    match lang
    case Zh => "zh"
    case En => "en"
  }

  /** The inverse of Code: the language a two-letter code names, if any. */
  function FromCode(code: string): (r: Option<Language>)
    ensures r.Some? ==> Code(r.value) == code
  {
    if code == "zh" then Some(Zh)
    else if code == "en" then Some(En)
    else None
  }

  lemma CodeRoundTrip(lang: Language)
    ensures FromCode(Code(lang)) == Some(lang)
    ensures |Code(lang)| == 2
  {
  }

  /** The language toggle: the other language. */
  function Toggle(lang: Language): (r: Language)
    ensures r != lang
  {
    if lang == Zh then En else Zh
  }

  /** Toggling twice returns to the language one started from. */
  lemma ToggleTwice(lang: Language)
    ensures Toggle(Toggle(lang)) == lang
  {
  }
}
