# Portfolio site: static server and page logic in Dafny

This project models the decision logic of a small portfolio web site and
proves properties of it. The site has two parts.

- **The local static file server** (`server.js`). One request handler
  answers OPTIONS at once. For other requests it turns the URL into a
  relative path, normalises it, and resolves it to an absolute path. A plain
  string-prefix test against the server's own directory then refuses, with
  403, every path whose resolved string does not begin with that directory. It picks a content type from the lower-cased
  extension and serves the file, 404 or 500 according to what reading the
  file gave.
  - `StaticServer.Respond` is the handler. It is split into `Route` (the
    decision before any read) and `Complete` (the read callback).
  - The read outcome is an input, not an effect.
  - Node's `path.normalize`, `path.resolve` and `path.extname` are modelled
    in `PosixPath`, segment by segment.
- **The page script** (`script.js`).
  - Translation lookup (`Translation`): a dot-separated key is walked through
    nested objects. Each step must reach a truthy value.
  - Rendering (`Render`): project cards and article entries as records, the
    three outcomes of filling a collection, the label fallbacks with their
    French defaults, and the `%20` encoding of the CV path.
  - Active navigation link (`Navigation`).
  - Page state (`Portfolio.Page`): a class holding the globals
    `translations` and `currentLang`, the `localStorage` map and the parts of
    the document that `changeLanguage`, `loadProjects`, `loadArticles` and
    `updateActiveNavLink` rewrite. Each loop of the source is a `while` loop
    proved against a specification function.

The server keeps two behaviours of the code exactly as written:

- Its containment check is `startsWith` on strings. So with the server in
  `/base`, a path under `/base-other` passes (`SiblingDirectoryPasses`).
- `path.resolve` works against the process working directory, not against
  the server's directory (`ResolvedAgainstWorkingDirectory`).

Where the intent and the code differ, the model follows the code:

- A path that leaves the directory is refused only when the prefix test
  fails. `Respond` states in general that refusal happens exactly when the
  prefix test fails. `TraversalEscapes` works this out for a one-level climb
  out of a one-segment directory.
- The collection error messages are fixed French strings. They are not
  taken from the translations.
- Only the URL `/` is rewritten to the index page.

Files: `options.dfy`, `strings.dfy` (JavaScript string built-ins),
`posix_path.dfy`, `static_server.dfy`, `translation.dfy`, `render.dfy`,
`navigation.dfy`, `portfolio.dfy`.

## Model

| member | source | states |
|---|---|---|
| StaticServer.FilePath | server.js:40-43 | the URL "/" becomes "./index.html"; any other URL becomes "." followed by the URL |
| StaticServer.RootIsIndex | server.js:40-46 | the root URL is read from the normalised path "index.html" |
| StaticServer.NamesUrlPath | server.js:40-46 | a URL of plain names becomes "." + URL and normalises to the names without the leading '/' |
| StaticServer.Route | server.js:29-63 | OPTIONS gives the fixed 200 reply; otherwise the request becomes a read exactly when the prefix test passes, and a read is of the normalised path with its content type; a refused path gets the 403 reply |
| StaticServer.Complete | server.js:66-85 | a read error ENOENT gives 404 whose body names the path; any other error gives 500 with the code; a successful read gives 200 with the bytes and the content type |
| StaticServer.OptionsAlwaysOk | server.js:29-37 | OPTIONS is answered 200 with no body, whatever the URL, directories and disk |
| StaticServer.ForbiddenIgnoresDisk | server.js:49-59 | status 403 exactly when the method is not OPTIONS and the prefix test fails, and then the response is the same whatever the read outcome |
| StaticServer.Respond | server.js:27-87 | every response has status 200, 403, 404 or 500 and carries Access-Control-Allow-Origin "*"; it is 403 exactly when the method is not OPTIONS and the prefix test fails |
| StaticServer.MethodIrrelevant | server.js:29 | any two methods other than OPTIONS get the same response |
| StaticServer.ContentTypeOf | server.js:62-63 | the table entry of the lower-cased extension when there is one, else application/octet-stream; so always a type of the table or octet-stream |
| StaticServer.ReadOutcomeStatus | server.js:62-85 | for an allowed request, the read outcome alone decides 200 (bytes, inferred type), 404 (normalised path in the body) or 500 (error code in the body) |
| StaticServer.ContentTypeIgnoresCase | server.js:62-63 | the content type of a lower-cased path equals that of the path |
| StaticServer.ContentTypeOfName | server.js:13-25 | a name, a dot and a dot-free suffix get the table entry of the lower-cased suffix, else application/octet-stream |
| StaticServer.UpperCaseExtension | server.js:62-63 | ".PNG" and ".png" are both served as image/png |
| StaticServer.ServesOwnDirectory | server.js:46-66 | run from its own directory, a URL of names under it is read from the names with the type of their extension |
| StaticServer.SiblingDirectoryPasses | server.js:52 | a sibling directory whose name extends the server directory's name passes the prefix test although it lies outside |
| StaticServer.ResolvedAgainstWorkingDirectory | server.js:49-50 | the full path is the URL under the working directory, and a working directory beginning differently from the server's is refused |
| StaticServer.TraversalPath | server.js:40-46 | "/../" followed by names normalises to "../" and the names: the relative normal form keeps the ".." |
| StaticServer.TraversalEscapes | server.js:49-52 | a one-level climb out of a one-segment directory resolves to the root, and is allowed exactly when that root path starts with the directory string |
| StaticServer.TraversalRefused | server.js:52-58 | such a climb to a name that begins differently from the directory is answered 403 |
| PosixPath.Resolve | server.js:50 | the resolved path is never empty, and is absolute exactly when the path or the working directory is |
| PosixPath.ResolveIsCollapsed | server.js:50 | a resolved path is "/" followed by the join of segments none of which is "", ".", ".." or contains '/' |
| PosixPath.Normalize | server.js:46-49 | the normal form is never empty, and is absolute exactly when the path is |
| PosixPath.NormalizeIsCollapsed | server.js:46 | the normal form is the input's leading and trailing '/' around a join of segments with no "", "." or '/' inside, and ".." only at the front of a relative path |
| PosixPath.NormalizeIdempotent | server.js:46 | normalising a normal form gives it back |
| PosixPath.ExtnameLower | server.js:62 | the extension of a lower-cased path is the lower-cased extension |
| PosixPath.ExtnameOfName | server.js:62 | the extension of name "." suffix is "." suffix when the suffix has no '.' or '/' |
| PosixPath.Extname | server.js:62 | the extension is empty or starts with '.', and contains no '/' |
| PosixPath.NormalizeAbsolute | server.js:49 | an absolute path of plain names is its own normal form |
| PosixPath.NormalizeDotRelative | server.js:46 | "./" and names normalise to the names |
| PosixPath.NormalizeDotParent | server.js:46 | "./../" and names normalise to "../" and the names |
| PosixPath.ResolveNames | server.js:50 | names resolved against an absolute directory are appended to it |
| PosixPath.ResolveParent | server.js:50 | "../" and names resolved against a one-segment directory climb to the root |
| PosixPath.AbsoluteUnder | server.js:52 | a path inside a directory starts with that directory's string |
| PosixPath.CollapseNames | server.js:46 | plain names pass through the segment walk unchanged |
| Strings.StartsWith | server.js:52 | a string starts with a prefix exactly when the prefix is no longer and agrees with it at every position |
| Strings.Lower | server.js:62 | same length, each ASCII capital replaced by its small letter and every other character kept |
| Strings.Upper | script.js:624 | same length, each ASCII small letter replaced by its capital and every other character kept |
| Strings.Split | script.js:593 | at least one piece, none containing the separator |
| Strings.JoinSplit | script.js:593 | joining the pieces of a split on one character gives back the string |
| Strings.SplitJoin | script.js:593 | splitting a join of separator-free pieces gives back the pieces |
| Strings.LowerIdempotent | server.js:62 | lower-casing twice is lower-casing once |
| Translation.Lookup | script.js:592-606 | a found value is truthy |
| Translation.LookupWalk | script.js:592-606 | the lookup finds the plain walk's value exactly when every prefix of the key path reaches a truthy value, and nothing otherwise |
| Translation.WalkKeys | script.js:592-606 | the loop over the split key, with its truthiness tests and break, returns the lookup |
| Translation.FirstIcon | script.js:608-610 | no icon is found exactly when the content has none; a found icon occurs in the content, after no other icon |
| Translation.Retext | script.js:608-617 | replacing the text keeps the first icon as it was |
| Translation.Translate | script.js:591-619 | the key is kept; an element whose key path does not resolve is unchanged; otherwise its first icon stays in front of the translated text, or the text replaces the content |
| Translation.TranslateAll | script.js:591-619 | one translated element per element, in order |
| Translation.TranslateIdempotent | script.js:606-617 | translating an element twice with the same translations is translating it once |
| Translation.Label | script.js:145-147 | a label is the translation when every segment of "lang.section.key" is truthy, and the built-in default otherwise, in particular when the language is missing; the same test guards all five labels (also lines 202-207, 264-266 and 299-301) |
| Render.DefaultLabels | script.js:202-207 | without translations for the language the labels are "Code", "Démo", "Lire l'article" and the two "Aucun …" messages |
| Render.ProjectCard | script.js:181-222 | image iff the image field is set; the placeholder always present and shown iff there is no image; a Code link iff github is set and a Demo link iff demo is set, Code first; one tag per technology in order |
| Render.CreateProjectCard | script.js:176-238 | the card built by accumulating the links equals the card function with the current labels |
| Render.ArticleView | script.js:295-313 | both links of an article entry point to the article, with the "read" label |
| Render.Cards | script.js:152-155 | one card per project, the i-th built from the i-th project |
| Render.Entries | script.js:271-274 | one entry per article, the i-th built from the i-th article |
| Render.ProjectsView | script.js:144-166 | a failed fetch gives exactly one error message, an empty list exactly one non-error message, and N projects exactly N cards in input order; cards only in the last case |
| Render.ArticlesView | script.js:263-285 | the same three outcomes for the article list |
| Render.GithubOnlyCard | script.js:181-222 | a project with one technology and only a GitHub link renders one card with the placeholder shown, one tag and one "Code" link |
| Render.EncodeSpaces | script.js:394 | the encoded path has no space, and a path without spaces is unchanged |
| Render.EncodeLength | script.js:394 | each space grows the path by two characters |
| Render.DecodeEncode | script.js:394 | decoding "%20" back undoes the encoding of any string without '%' |
| Render.CvLink | script.js:390-394 | the CV path "assets/cv/CV Olivier.pdf" is linked as "assets/cv/CV%20Olivier.pdf" |
| Navigation.ActiveId | script.js:104-111 | the empty id, or the id of a section whose band contains the scroll position |
| Navigation.FindActiveSection | script.js:103-111 | the loop over the sections returns the id of the last section whose band contains the scroll position, or "" |
| Navigation.ActiveIdIsLastCovering | script.js:103-111 | with no covering section the id is "", otherwise it is the id of a covering section after which none covers |
| Navigation.Marked | script.js:113-118 | a link keeps its href and is active exactly when its href is "#" and the current id |
| Portfolio.InitialLang | script.js:18 | the stored preference when it is non-empty, else "fr" |
| Portfolio.StoredLangRestored | script.js:18 | after a language is stored it is the initial language of the next visit |
| Portfolio.ReapplyLanguage | script.js:591-619 | applying the same language twice leaves the elements as applying it once |
| Portfolio.Page.constructor | script.js:17-18 | the page starts with empty translations and the language from the stored preference |
| Portfolio.Page.LoadProjects | script.js:128-168 | with a grid, the grid ends holding the projects view of the fetch outcome; without one nothing changes |
| Portfolio.Page.LoadArticles | script.js:247-287 | with a list, the list ends holding the articles view of the fetch outcome; without one nothing changes |
| Portfolio.Page.TranslateElements | script.js:591-619 | every data-i18n element is replaced by its translation, in order |
| Portfolio.Page.ChangeLanguage | script.js:574-636 | an unknown code changes nothing; a known one sets the language and the stored preference, the document languages, the translated elements, the upper-cased indicator, closes the dropdown and re-renders both collections in the new language |
| Portfolio.Page.MarkDocument | script.js:584-588 | the document and the optional #htmlLang element take the new language |
| Portfolio.Page.ShowLanguage | script.js:621-631 | the optional indicator shows the upper-cased code and the optional dropdown is closed |
| Portfolio.Page.InitTranslations | script.js:555-568 | a failed fetch changes nothing; a successful one installs the translations and applies the current language |
| Portfolio.Page.UpdateActiveNavLink | script.js:100-118 | each link ends active exactly when its href is "#" and the active section's id |

## Left out

- `decodeURIComponent` (server.js:40): the URL is taken as already decoded. A malformed escape makes the real handler throw; that case is not modelled.
- `http.createServer`, `listen`, `res.writeHead`/`res.end` and `fs.readFile` are not modelled as effects. The handler returns a `Response` value, and the read outcome is an input.
- Node's `path` functions are modelled for POSIX only. Windows separators and drive letters are not covered.
- Case mapping (`toLowerCase`, `toUpperCase`) is ASCII only.
- JSON values other than strings and objects are not modelled. Reading a property of a string (such as `"abc".length`) always gives nothing in the model, and properties inherited from `Object.prototype` are not modelled.
- Translation.FirstIcon: the icon regular expression and the `includes('<i class=')` test are reduced to "the first icon fragment of the content". Markup that mentions `<i class=` without a complete icon is not distinguished.
- The exact HTML text of cards, entries and messages is not modelled; their structure is.
- The two collection error messages are the texts of the code with the surrounding whitespace dropped. The line break and indentation inside each message, between "projets." (or "articles.") and "Vérifiez" (script.js:163-164, script.js:282-283), are reduced to one space.
- `loadProjects` and `loadArticles` are asynchronous. Under `changeLanguage` the model runs them in order, to completion, with their fetch outcomes given. Races between overlapping re-renders are not modelled.
- A project without a `technologies` list makes `createProjectCard` throw inside `projects.forEach`. The throw is caught (script.js:158-167), so the grid ends showing the error message, as for a failed fetch. The model's `Project` always has the list, so it cannot express this input.
- The `console.error` diagnostics (script.js:132, 159, 251, 278, 566, 576 and server.js:69) are not modelled: they change no state the page or the client sees.
- The scroll position is an integer; fractional pixel values are not modelled.
- Event wiring, the hamburger menu, smooth scrolling, scroll animations, the contact form, `formatDate`, the CV download and preview through `fetch`/`blob`, the profile-image probe and the image `onerror` fallback are not modelled. They are browser plumbing or timing.
