/// The state of the portfolio page (script.js): the global `translations`
/// and `currentLang`, the stored language preference, and the parts of the
/// document that `changeLanguage`, `loadProjects`, `loadArticles` and
/// `updateActiveNavLink` rewrite.
module Portfolio {
  import opened Options
  import opened Strings
  import opened Translation
  import opened Render
  import opened Navigation

  /** The `localStorage` key of the language preference. */
  const PrefKey := "portfolio-lang"

  /** `localStorage.getItem('portfolio-lang') || 'fr'`: a missing or empty
      preference gives French. */
  function InitialLang(storage: map<string, string>): (lang: string)
    ensures lang != ""
    ensures PrefKey in storage && storage[PrefKey] != "" ==> lang == storage[PrefKey]
    ensures PrefKey !in storage || storage[PrefKey] == "" ==> lang == "fr"
  {
    if PrefKey in storage && storage[PrefKey] != "" then storage[PrefKey] else "fr"
  }

  /** A stored choice is what the next visit starts with. */
  lemma StoredLangRestored(storage: map<string, string>, lang: string)
    requires lang != ""
    ensures InitialLang(storage[PrefKey := lang]) == lang
  {
  }

  /** A DOM container (`#projectsGrid`, `#articlesList`) and its children. */
  class Container {
    var items: seq<Item>

    constructor (items0: seq<Item>)
      ensures items == items0
    {
      items := items0;
    }
  }

  class Page {
    var translations: map<string, Json>
    var currentLang: string
    var storage: map<string, string>
    /** `document.documentElement.lang`. */
    var documentLang: string
    /** The `lang` of `#htmlLang`, when that element exists. */
    var htmlLang: Option<string>
    /** The elements carrying `data-i18n`, in document order. */
    var elements: seq<Element>
    /** The text of `#currentLang`, when that element exists. */
    var indicator: Option<string>
    /** Whether `#langDropdown` is open, when that element exists. */
    var dropdownOpen: Option<bool>
    var navLinks: seq<NavLink>
    const projectsGrid: Container?
    const articlesList: Container?

    /** The two containers are different elements. */
    predicate Valid()
      reads this
    {
      projectsGrid == null || projectsGrid != articlesList
    }

    /** The page as the script finds it: empty translations, and the
        language taken from the stored preference. */
    constructor (storage0: map<string, string>, documentLang0: string, htmlLang0: Option<string>,
                 elements0: seq<Element>, indicator0: Option<string>, dropdownOpen0: Option<bool>,
                 navLinks0: seq<NavLink>, projectsGrid0: Container?, articlesList0: Container?)
      requires projectsGrid0 == null || projectsGrid0 != articlesList0
      ensures Valid()
      ensures translations == map[] && currentLang == InitialLang(storage0) && storage == storage0
      ensures documentLang == documentLang0 && htmlLang == htmlLang0 && elements == elements0
      ensures indicator == indicator0 && dropdownOpen == dropdownOpen0 && navLinks == navLinks0
      ensures projectsGrid == projectsGrid0 && articlesList == articlesList0
    {
      translations := map[];
      currentLang := InitialLang(storage0);
      storage := storage0;
      documentLang := documentLang0;
      htmlLang := htmlLang0;
      elements := elements0;
      indicator := indicator0;
      dropdownOpen := dropdownOpen0;
      navLinks := navLinks0;
      projectsGrid := projectsGrid0;
      articlesList := articlesList0;
    }

    /** `translations[lang]` is truthy. */
    predicate Known(lang: string)
      reads this
    {
      lang in translations && Truthy(translations[lang])
    }

    /** `loadProjects`, the fetch outcome given; nothing happens without a
        grid. */
    method LoadProjects(f: Fetched<Project>)
      modifies projectsGrid
      ensures projectsGrid != null ==> projectsGrid.items == ProjectsView(f, translations, currentLang)
    {
      if projectsGrid == null {
        return;
      }
      match f
      case Failed =>
        projectsGrid.items := [Message(true, ProjectsError)];
      case Loaded(ps) =>
        if |ps| == 0 {
          projectsGrid.items := [Message(false, NoProjectsText(translations, currentLang))];
          return;
        }
        projectsGrid.items := [];
        var i := 0;
        while i < |ps|
          invariant 0 <= i <= |ps|
          invariant projectsGrid.items == Cards(ps[..i], translations, currentLang)
        {
          var card := CreateProjectCard(ps[i], translations, currentLang);
          projectsGrid.items := projectsGrid.items + [ProjectItem(card)];
          assert ps[..i + 1][..i] == ps[..i];
          i := i + 1;
        }
        assert ps[..|ps|] == ps;
    }

    /** `loadArticles`, the fetch outcome given; nothing happens without a
        list. */
    method LoadArticles(f: Fetched<Article>)
      modifies articlesList
      ensures articlesList != null ==> articlesList.items == ArticlesView(f, translations, currentLang)
    {
      if articlesList == null {
        return;
      }
      match f
      case Failed =>
        articlesList.items := [Message(true, ArticlesError)];
      case Loaded(articles) =>
        if |articles| == 0 {
          articlesList.items := [Message(false, NoArticlesText(translations, currentLang))];
          return;
        }
        articlesList.items := [];
        var i := 0;
        while i < |articles|
          invariant 0 <= i <= |articles|
          invariant articlesList.items == Entries(articles[..i], translations, currentLang)
        {
          var entry := ArticleView(articles[i], ReadArticleText(translations, currentLang));
          articlesList.items := articlesList.items + [ArticleItem(entry)];
          assert articles[..i + 1][..i] == articles[..i];
          i := i + 1;
        }
        assert articles[..|articles|] == articles;
    }

    /** The `forEach` over the `data-i18n` elements. */
    method TranslateElements(start: Json)
      modifies this`elements
      ensures elements == TranslateAll(old(elements), start)
    {
      var i := 0;
      while i < |elements|
        invariant 0 <= i <= |elements| == |old(elements)|
        invariant forall j :: 0 <= j < i ==> elements[j] == Translate(old(elements)[j], start)
        invariant forall j :: i <= j < |elements| ==> elements[j] == old(elements)[j]
      {
        var e := elements[i];
        var value := WalkKeys(start, Split(e.key, '.'));
        if value.Some? {
          elements := elements[i := e.(content := Retext(e.content, ToText(value.value)))];
        }
        i := i + 1;
      }
    }

    /** `changeLanguage(lang)`, with the outcomes of the two reloads it
        starts given.  An unknown code changes nothing. */
    method ChangeLanguage(lang: string, projects: Fetched<Project>, articles: Fetched<Article>)
      requires Valid()
      modifies this`currentLang, this`storage, this`documentLang, this`htmlLang, this`elements,
               this`indicator, this`dropdownOpen, projectsGrid, articlesList
      ensures Valid()
      ensures !old(Known(lang)) ==>
        && currentLang == old(currentLang) && storage == old(storage)
        && documentLang == old(documentLang) && htmlLang == old(htmlLang) && elements == old(elements)
        && indicator == old(indicator) && dropdownOpen == old(dropdownOpen)
        && (projectsGrid != null ==> projectsGrid.items == old(projectsGrid.items))
        && (articlesList != null ==> articlesList.items == old(articlesList.items))
      ensures old(Known(lang)) ==>
        && currentLang == lang && storage == old(storage)[PrefKey := lang]
        && documentLang == lang && htmlLang == (if old(htmlLang).Some? then Some(lang) else None)
        && elements == TranslateAll(old(elements), translations[lang])
        && indicator == (if old(indicator).Some? then Some(Upper(lang)) else None)
        && dropdownOpen == (if old(dropdownOpen).Some? then Some(false) else None)
        && (projectsGrid != null ==> projectsGrid.items == ProjectsView(projects, translations, lang))
        && (articlesList != null ==> articlesList.items == ArticlesView(articles, translations, lang))
    {
      if !Known(lang) {
        return;
      }
      currentLang := lang;
      storage := storage[PrefKey := lang];
      MarkDocument(lang);
      TranslateElements(translations[lang]);
      ShowLanguage(lang);
      LoadProjects(projects);
      LoadArticles(articles);
    }

    /** The `lang` attributes of the document and of `#htmlLang`. */
    method MarkDocument(lang: string)
      modifies this`documentLang, this`htmlLang
      ensures documentLang == lang && htmlLang == (if old(htmlLang).Some? then Some(lang) else None)
    {
      documentLang := lang;
      if htmlLang.Some? {
        htmlLang := Some(lang);
      }
    }

    /** The indicator shows the upper-cased code; the dropdown closes. */
    method ShowLanguage(lang: string)
      modifies this`indicator, this`dropdownOpen
      ensures indicator == (if old(indicator).Some? then Some(Upper(lang)) else None)
      ensures dropdownOpen == (if old(dropdownOpen).Some? then Some(false) else None)
    {
      if indicator.Some? {
        indicator := Some(Upper(lang));
      }
      if dropdownOpen.Some? {
        dropdownOpen := Some(false);
      }
    }

    /** `initTranslations`: on a successful fetch the translations are
        installed and `changeLanguage(currentLang)` runs; a failure changes
        nothing. */
    method InitTranslations(fetched: Option<map<string, Json>>, projects: Fetched<Project>, articles: Fetched<Article>)
      requires Valid()
      modifies this`translations, this`currentLang, this`storage, this`documentLang, this`htmlLang,
               this`elements, this`indicator, this`dropdownOpen, projectsGrid, articlesList
      ensures Valid()
      ensures translations == (if fetched.Some? then fetched.value else old(translations))
      ensures currentLang == old(currentLang)
      ensures fetched.None? || !Known(old(currentLang)) ==>
        && storage == old(storage)
        && documentLang == old(documentLang) && htmlLang == old(htmlLang) && elements == old(elements)
        && indicator == old(indicator) && dropdownOpen == old(dropdownOpen)
        && (projectsGrid != null ==> projectsGrid.items == old(projectsGrid.items))
        && (articlesList != null ==> articlesList.items == old(articlesList.items))
      ensures fetched.Some? && Known(old(currentLang)) ==>
        var lang := old(currentLang);
        && storage == old(storage)[PrefKey := lang]
        && documentLang == lang && htmlLang == (if old(htmlLang).Some? then Some(lang) else None)
        && elements == TranslateAll(old(elements), translations[lang])
        && indicator == (if old(indicator).Some? then Some(Upper(lang)) else None)
        && dropdownOpen == (if old(dropdownOpen).Some? then Some(false) else None)
        && (projectsGrid != null ==> projectsGrid.items == ProjectsView(projects, translations, lang))
        && (articlesList != null ==> articlesList.items == ArticlesView(articles, translations, lang))
    {
      if fetched.None? {
        return;
      }
      translations := fetched.value;
      ChangeLanguage(currentLang, projects, articles);
    }

    /** `updateActiveNavLink` at the scroll position `scrollY`. */
    method UpdateActiveNavLink(sections: seq<Section>, scrollY: int)
      modifies this`navLinks
      ensures |navLinks| == |old(navLinks)|
      ensures forall i :: 0 <= i < |navLinks| ==> navLinks[i] == Marked(old(navLinks)[i], ActiveId(sections, scrollY))
    {
      var current := FindActiveSection(sections, scrollY);
      var i := 0;
      while i < |navLinks|
        invariant 0 <= i <= |navLinks| == |old(navLinks)|
        invariant forall j :: 0 <= j < i ==> navLinks[j] == Marked(old(navLinks)[j], current)
        invariant forall j :: i <= j < |navLinks| ==> navLinks[j] == old(navLinks)[j]
      {
        var link := navLinks[i].(active := false);
        if link.href == Some("#" + current) {
          link := link.(active := true);
        }
        navLinks := navLinks[i := link];
        i := i + 1;
      }
    }
  }

  /** Changing to the language already shown and applied again leaves the
      translated elements as they were. */
  lemma ReapplyLanguage(es: seq<Element>, start: Json)
    ensures TranslateAll(TranslateAll(es, start), start) == TranslateAll(es, start)
  {
    forall i | 0 <= i < |es|
      ensures TranslateAll(TranslateAll(es, start), start)[i] == TranslateAll(es, start)[i]
    {
      TranslateIdempotent(es[i], start);
    }
  }
}
