/// The dynamic parts of the portfolio page (script.js): project cards and
/// article entries as structure rather than markup, the three outcomes of
/// filling a collection, the translated labels with their French defaults,
/// and the encoding of the CV path.
module Render {
  import opened Options
  import opened Translation

  /** A JSON field the page tests for truthiness: absent, or a string that
      counts only when non-empty. */
  predicate Present(field: Option<string>)
  {
    field.Some? && field.value != ""
  }

  /** An entry of `projects.json`. */
  datatype Project = Project(
    title: string,
    description: string,
    image: Option<string>,
    technologies: seq<string>,
    cardano: bool,
    github: Option<string>,
    demo: Option<string>)

  datatype LinkKind = CodeLink | DemoLink

  datatype Link = Link(kind: LinkKind, href: string, text: string)

  /** A rendered project card: the image, the placeholder (always there,
      shown or hidden), the title with its Cardano badge, the description,
      one tag per technology and the links. */
  datatype Card = Card(
    image: Option<string>,
    placeholderShown: bool,
    title: string,
    cardanoBadge: bool,
    description: string,
    tags: seq<string>,
    links: seq<Link>)

  /** An entry of `articles.json`. */
  datatype Article = Article(title: string, link: string, description: string)

  /** A rendered article: the title links to the article, and so does the
      "read" link with its label. */
  datatype ArticleEntry = ArticleEntry(title: string, titleHref: string, description: string,
                                       readHref: string, readText: string)

  /** What a collection container can hold. */
  datatype Item =
    | Message(isError: bool, text: string)
    | ProjectItem(card: Card)
    | ArticleItem(entry: ArticleEntry)

  /** What fetching and parsing a JSON list gave: everything that lands in
      the `catch` is `Failed`. */
  datatype Fetched<T> = Failed | Loaded(entries: seq<T>)

  const ProjectsError := "Erreur lors du chargement des projets. Vérifiez que le fichier projects.json existe et est valide."
  const ArticlesError := "Erreur lors du chargement des articles. Vérifiez que le fichier articles.json existe et est valide."

  // ---------------------------------------------------------------------
  // Labels
  // ---------------------------------------------------------------------

  function CodeText(t: map<string, Json>, lang: string): string
  {
    Label(t, lang, ["projects", "viewCode"], "Code")
  }

  function DemoText(t: map<string, Json>, lang: string): string
  {
    Label(t, lang, ["projects", "viewDemo"], "Démo")
  }

  function ReadArticleText(t: map<string, Json>, lang: string): string
  {
    Label(t, lang, ["articles", "readArticle"], "Lire l'article")
  }

  function NoProjectsText(t: map<string, Json>, lang: string): string
  {
    Label(t, lang, ["projects", "noProjects"], "Aucun projet disponible pour le moment.")
  }

  function NoArticlesText(t: map<string, Json>, lang: string): string
  {
    Label(t, lang, ["articles", "noArticles"], "Aucun article disponible pour le moment.")
  }

  /** Without translations for the language every label is its default. */
  lemma DefaultLabels(t: map<string, Json>, lang: string)
    requires lang !in t
    ensures CodeText(t, lang) == "Code" && DemoText(t, lang) == "Démo"
    ensures ReadArticleText(t, lang) == "Lire l'article"
    ensures NoProjectsText(t, lang) == "Aucun projet disponible pour le moment."
    ensures NoArticlesText(t, lang) == "Aucun article disponible pour le moment."
  {
  }

  // ---------------------------------------------------------------------
  // Project cards
  // ---------------------------------------------------------------------

  /** The card `createProjectCard` builds, given the two link labels. */
  function ProjectCard(p: Project, codeText: string, demoText: string): (c: Card)
    ensures c.image.Some? <==> Present(p.image)
    ensures c.image.Some? ==> c.image.value == p.image.value
    ensures c.placeholderShown <==> !Present(p.image)
    ensures c.title == p.title && c.description == p.description && c.cardanoBadge == p.cardano
    ensures c.tags == p.technologies
    ensures Present(p.github) ==> Link(CodeLink, p.github.value, codeText) in c.links
    ensures Present(p.demo) ==> Link(DemoLink, p.demo.value, demoText) in c.links
    ensures forall l :: l in c.links ==>
      (l.kind == CodeLink ==> Present(p.github) && l == Link(CodeLink, p.github.value, codeText))
      && (l.kind == DemoLink ==> Present(p.demo) && l == Link(DemoLink, p.demo.value, demoText))
    ensures |c.links| <= 2 && (|c.links| == 2 ==> c.links[0].kind == CodeLink && c.links[1].kind == DemoLink)
  {
    var code := if Present(p.github) then [Link(CodeLink, p.github.value, codeText)] else [];
    var demo := if Present(p.demo) then [Link(DemoLink, p.demo.value, demoText)] else [];
    Card(if Present(p.image) then p.image else None, !Present(p.image), p.title, p.cardano,
         p.description, p.technologies, code + demo)
  }

  /** `createProjectCard` itself, with the labels taken from the
      translations of the current language and `linksHTML` accumulated
      link by link. */
  method CreateProjectCard(p: Project, t: map<string, Json>, lang: string) returns (c: Card)
    ensures c == ProjectCard(p, CodeText(t, lang), DemoText(t, lang))
  {
    var codeText := CodeText(t, lang);
    var demoText := DemoText(t, lang);
    var links: seq<Link> := [];
    if Present(p.github) {
      links := links + [Link(CodeLink, p.github.value, codeText)];
    }
    if Present(p.demo) {
      links := links + [Link(DemoLink, p.demo.value, demoText)];
    }
    var image := if Present(p.image) then p.image else None;
    c := Card(image, !Present(p.image), p.title, p.cardano, p.description, p.technologies, links);
  }

  /** `createArticleItem`. */
  function ArticleView(a: Article, readText: string): (e: ArticleEntry)
    ensures e.titleHref == a.link && e.readHref == a.link
    ensures e.title == a.title && e.description == a.description && e.readText == readText
  {
    ArticleEntry(a.title, a.link, a.description, a.link, readText)
  }

  // ---------------------------------------------------------------------
  // Collections
  // ---------------------------------------------------------------------

  function Cards(ps: seq<Project>, t: map<string, Json>, lang: string): (r: seq<Item>)
    ensures |r| == |ps|
    ensures forall i :: 0 <= i < |ps| ==> r[i] == ProjectItem(ProjectCard(ps[i], CodeText(t, lang), DemoText(t, lang)))
  {
    seq(|ps|, i requires 0 <= i < |ps| => ProjectItem(ProjectCard(ps[i], CodeText(t, lang), DemoText(t, lang))))
  }

  function Entries(articles: seq<Article>, t: map<string, Json>, lang: string): (r: seq<Item>)
    ensures |r| == |articles|
    ensures forall i :: 0 <= i < |articles| ==> r[i] == ArticleItem(ArticleView(articles[i], ReadArticleText(t, lang)))
  {
    seq(|articles|, i requires 0 <= i < |articles| => ArticleItem(ArticleView(articles[i], ReadArticleText(t, lang))))
  }

  /** A container shows only project cards. */
  predicate OnlyCards(items: seq<Item>)
  {
    forall i :: 0 <= i < |items| ==> items[i].ProjectItem?
  }

  /** What `loadProjects` leaves in the grid: a failure gives one error
      message, an empty list one (non-error) message, and a list of N
      projects exactly N cards, the i-th built from the i-th project. */
  function ProjectsView(f: Fetched<Project>, t: map<string, Json>, lang: string): (v: seq<Item>)
    ensures f.Failed? ==> |v| == 1 && v[0].Message? && v[0].isError
    ensures f.Loaded? && |f.entries| == 0 ==> |v| == 1 && v[0] == Message(false, NoProjectsText(t, lang))
    ensures f.Loaded? && |f.entries| > 0 ==>
      && |v| == |f.entries| && OnlyCards(v)
      && forall i :: 0 <= i < |v| ==>
           v[i].card.title == f.entries[i].title && v[i].card.tags == f.entries[i].technologies
    ensures OnlyCards(v) <==> f.Loaded? && |f.entries| > 0
  {
    match f
    case Failed => [Message(true, ProjectsError)]
    case Loaded(ps) => if |ps| == 0 then [Message(false, NoProjectsText(t, lang))] else Cards(ps, t, lang)
  }

  /** What `loadArticles` leaves in the list: the same three outcomes. */
  function ArticlesView(f: Fetched<Article>, t: map<string, Json>, lang: string): (v: seq<Item>)
    ensures f.Failed? ==> |v| == 1 && v[0].Message? && v[0].isError
    ensures f.Loaded? && |f.entries| == 0 ==> |v| == 1 && v[0] == Message(false, NoArticlesText(t, lang))
    ensures f.Loaded? && |f.entries| > 0 ==>
      && |v| == |f.entries|
      && forall i :: 0 <= i < |v| ==> v[i].ArticleItem? && v[i].entry.titleHref == f.entries[i].link
  {
    match f
    case Failed => [Message(true, ArticlesError)]
    case Loaded(articles) =>
      if |articles| == 0 then [Message(false, NoArticlesText(t, lang))] else Entries(articles, t, lang)
  }

  /** A project with a title, one technology and only a GitHub link, shown
      in a language without translations: one card, no image and the
      placeholder shown, one tag, one "Code" link. */
  lemma GithubOnlyCard(t: map<string, Json>, lang: string, title: string, tech: string, url: string)
    requires lang !in t && url != ""
    ensures var v := ProjectsView(Loaded([Project(title, "", None, [tech], false, Some(url), None)]), t, lang);
      && |v| == 1 && v[0].ProjectItem?
      && v[0].card.image == None && v[0].card.placeholderShown
      && v[0].card.tags == [tech]
      && v[0].card.links == [Link(CodeLink, url, "Code")]
  {
    DefaultLabels(t, lang);
  }

  // ---------------------------------------------------------------------
  // The CV path
  // ---------------------------------------------------------------------

  const CvFileName := "CV Olivier.pdf"
  const CvPath := "assets/cv/" + CvFileName

  /** `s.replace(/ /g, '%20')`. */
  function EncodeSpaces(s: string): (r: string)
    ensures ' ' !in r
    ensures ' ' !in s ==> r == s
  {
    if |s| == 0 then ""
    else (if s[0] == ' ' then "%20" else [s[0]]) + EncodeSpaces(s[1..])
  }

  /** Each space grows by two characters. */
  lemma {:induction false} EncodeLength(s: string)
    ensures |EncodeSpaces(s)| == |s| + 2 * multiset(s)[' ']
  {
    if |s| > 0 {
      EncodeLength(s[1..]);
      assert s == [s[0]] + s[1..];
      assert multiset(s) == multiset([s[0]]) + multiset(s[1..]);
    }
  }

  /** The inverse: each "%20" back to a space. */
  function DecodeSpaces(s: string): string
  {
    if |s| >= 3 && s[..3] == "%20" then " " + DecodeSpaces(s[3..])
    else if |s| == 0 then ""
    else [s[0]] + DecodeSpaces(s[1..])
  }

  lemma DecodeSpace(rest: string)
    ensures DecodeSpaces("%20" + rest) == " " + DecodeSpaces(rest)
  {
    var e := "%20" + rest;
    assert e[..3] == "%20" && e[3..] == rest;
  }

  lemma DecodeChar(c: char, rest: string)
    requires c != '%'
    ensures DecodeSpaces([c] + rest) == [c] + DecodeSpaces(rest)
  {
    var e := [c] + rest;
    assert e[0] == c && e[1..] == rest;
    assert |e| >= 3 ==> e[..3][0] == c;
  }

  /** Encoding loses nothing in a string without '%'. */
  lemma {:induction false} DecodeEncode(s: string)
    requires '%' !in s
    ensures DecodeSpaces(EncodeSpaces(s)) == s
  {
    if |s| > 0 {
      DecodeEncode(s[1..]);
      var rest := EncodeSpaces(s[1..]);
      if s[0] == ' ' {
        DecodeSpace(rest);
      } else {
        DecodeChar(s[0], rest);
      }
      assert s == [s[0]] + s[1..];
    }
  }

  /** Encoding works piece by piece. */
  lemma {:induction false} EncodeAppend(a: string, b: string)
    ensures EncodeSpaces(a + b) == EncodeSpaces(a) + EncodeSpaces(b)
  {
    if |a| > 0 {
      EncodeAppend(a[1..], b);
      assert (a + b)[0] == a[0] && (a + b)[1..] == a[1..] + b;
    } else {
      assert a + b == b;
    }
  }

  /** A name with one space: the space alone becomes "%20". */
  lemma EncodeOneSpace(a: string, b: string)
    requires ' ' !in a && ' ' !in b
    ensures EncodeSpaces(a + [' '] + b) == a + "%20" + b
  {
    EncodeAppend(a, [' '] + b);
    EncodeSpaceHead(b);
    Regroup(a, [' '], b);
    Regroup(a, "%20", b);
  }

  lemma EncodeSpaceHead(b: string)
    ensures EncodeSpaces([' '] + b) == "%20" + EncodeSpaces(b)
  {
    assert ([' '] + b)[0] == ' ' && ([' '] + b)[1..] == b;
  }

  /** String concatenation regrouped to the right.
   *  A lemma of its own: kept apart from the proofs that use it, the literal
   *  stays cheap to prove whatever the solver's seed. */
  lemma Regroup(x: string, y: string, z: string)
    ensures x + y + z == x + (y + z)
  {
  }

  /** The CV link of the page: the one space of the file name is encoded. */
  lemma CvLink()
    ensures EncodeSpaces(CvPath) == "assets/cv/CV%20Olivier.pdf"
  {
    var a := "assets/cv/CV";
    var b := "Olivier.pdf";
    assert ' ' !in a && ' ' !in b by { }
    assert CvPath == a + [' '] + b by { }
    assert a + "%20" + b == "assets/cv/CV%20Olivier.pdf" by { }
    EncodeOneSpace(a, b);
  }
}
