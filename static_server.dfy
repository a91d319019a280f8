/// The request handler of the local static file server (server.js).  One
/// request is answered in two phases: `Route` decides, from the verb, the
/// URL, the server's own directory and the process working directory,
/// whether to answer at once or to read a file; `Complete` turns the outcome
/// of that read into the response.  `Respond` is the two together.
module StaticServer {
  import opened Strings
  import opened PosixPath

  newtype byte = x: int | 0 <= x < 256

  /** What `fs.readFile` hands to its callback. */
  datatype ReadOutcome =
    | Contents(bytes: seq<byte>)
    | ReadError(code: string)

  datatype Body =
    | NoBody
    | Text(text: string)
    | Bytes(bytes: seq<byte>)

  datatype Response = Response(status: int, headers: map<string, string>, body: Body)

  /** The two phases of the handler: an immediate reply, or a read of `path`
      whose contents are served as `contentType`. */
  datatype Action =
    | Reply(response: Response)
    | ReadFile(path: string, contentType: string)

  const AllowOrigin := "Access-Control-Allow-Origin"
  const ContentTypeHeader := "Content-Type"
  const NotFoundCode := "ENOENT"
  const OctetStream := "application/octet-stream"
  const ForbiddenBody := "<h1>403 - Accès interdit</h1>"

  /** The `mimeTypes` table: lower-case extension, dot included, to type. */
  const MimeTypes: map<string, string> := map[
    ".html" := "text/html",
    ".css" := "text/css",
    ".js" := "application/javascript",
    ".json" := "application/json",
    ".jpg" := "image/jpeg",
    ".jpeg" := "image/jpeg",
    ".png" := "image/png",
    ".gif" := "image/gif",
    ".svg" := "image/svg+xml",
    ".pdf" := "application/pdf",
    ".ico" := "image/x-icon"
  ]

  const OptionsResponse := Response(200, map[
      AllowOrigin := "*",
      "Access-Control-Allow-Methods" := "GET, POST, OPTIONS",
      "Access-Control-Allow-Headers" := "Content-Type"
    ], NoBody)

  const ForbiddenResponse := Response(403, map[ContentTypeHeader := "text/html", AllowOrigin := "*"], Text(ForbiddenBody))

  /** The path handed to `path.normalize`: "." before the (already decoded)
      URL, with the bare root "./" rewritten to the index page. */
  function FilePath(url: string): (r: string)
    ensures url == "/" ==> r == "./index.html"
    ensures url != "/" ==> r == "." + url
  {
    var filePath := "." + url;
    assert filePath[1..] == url;
    if filePath == "./" then "./index.html" else filePath
  }

  /** The normalised relative path that is checked, typed and read. */
  function NormalizedPath(url: string): string
  {
    Normalize(FilePath(url))
  }

  /** The absolute path compared against the base directory.  It is resolved
      against the process working directory, not against the server's own
      directory. */
  function FullPath(url: string, cwd: string): string
  {
    Resolve(cwd, NormalizedPath(url))
  }

  /** The containment test: a plain string-prefix comparison. */
  predicate Allowed(url: string, dirname: string, cwd: string)
  {
    StartsWith(FullPath(url, cwd), Normalize(dirname))
  }

  /** The content type from the lower-cased extension, or octet-stream. */
  function ContentTypeOf(path: string): (t: string)
    ensures Lower(Extname(path)) in MimeTypes ==> t == MimeTypes[Lower(Extname(path))]
    ensures Lower(Extname(path)) !in MimeTypes ==> t == OctetStream
    ensures t == OctetStream || t in MimeTypes.Values
  {
    var ext := Lower(Extname(path));
    if ext in MimeTypes then MimeTypes[ext] else OctetStream
  }

  /** First phase: answer OPTIONS and refused paths at once; everything else
      becomes a read of the normalised path. */
  function Route(verb: string, url: string, dirname: string, cwd: string): (r: Action)
    ensures verb == "OPTIONS" ==> r == Reply(OptionsResponse)
    ensures verb != "OPTIONS" && !Allowed(url, dirname, cwd) ==> r == Reply(ForbiddenResponse)
    ensures r.ReadFile? <==> verb != "OPTIONS" && Allowed(url, dirname, cwd)
    ensures r.ReadFile? ==> r.path == NormalizedPath(url) && r.contentType == ContentTypeOf(NormalizedPath(url))
  {
    if verb == "OPTIONS" then Reply(OptionsResponse)
    else if !Allowed(url, dirname, cwd) then Reply(ForbiddenResponse)
    else
      var normalizedPath := NormalizedPath(url);
      ReadFile(normalizedPath, ContentTypeOf(normalizedPath))
  }

  /** Second phase: the read callback. */
  function Complete(route: Action, outcome: ReadOutcome): (r: Response)
    ensures route.Reply? ==> r == route.response
    ensures route.ReadFile? && outcome.Contents? ==>
      r == Response(200, map[ContentTypeHeader := route.contentType, AllowOrigin := "*"], Bytes(outcome.bytes))
    ensures route.ReadFile? && outcome.ReadError? && outcome.code == NotFoundCode ==>
      r.status == 404 && r.body == Text("<h1>404 - Fichier non trouvé</h1><p>Chemin: " + route.path + "</p>")
    ensures route.ReadFile? && outcome.ReadError? && outcome.code != NotFoundCode ==>
      r == Response(500, map[AllowOrigin := "*"], Text("Erreur serveur: " + outcome.code))
  {
    match route
    case Reply(response) => response
    case ReadFile(path, contentType) =>
      match outcome
      case ReadError(code) =>
        if code == NotFoundCode then
          Response(404, map[ContentTypeHeader := "text/html", AllowOrigin := "*"],
                   Text("<h1>404 - Fichier non trouvé</h1><p>Chemin: " + path + "</p>"))
        else
          Response(500, map[AllowOrigin := "*"], Text("Erreur serveur: " + code))
      case Contents(bytes) =>
        Response(200, map[ContentTypeHeader := contentType, AllowOrigin := "*"], Bytes(bytes))
  }

  /** The whole handler for one request, given what reading the file yields. */
  function Respond(verb: string, url: string, dirname: string, cwd: string, outcome: ReadOutcome): (r: Response)
    ensures r.status == 200 || r.status == 403 || r.status == 404 || r.status == 500
    ensures AllowOrigin in r.headers && r.headers[AllowOrigin] == "*"
    ensures r.status == 403 <==> verb != "OPTIONS" && !Allowed(url, dirname, cwd)
  {
    Complete(Route(verb, url, dirname, cwd), outcome)
  }

  // ---------------------------------------------------------------------
  // Properties of the handler
  // ---------------------------------------------------------------------

  /** OPTIONS is answered 200 with the CORS headers and no body, whatever
      the URL and whatever is on disk. */
  lemma OptionsAlwaysOk(url: string, dirname: string, cwd: string, outcome: ReadOutcome)
    ensures Respond("OPTIONS", url, dirname, cwd, outcome) == OptionsResponse
    ensures OptionsResponse.status == 200 && OptionsResponse.body == NoBody
  {
  }

  lemma NormalizeIndex()
    ensures Normalize("./index.html") == "index.html"
  {
    var s := ["index.html"];
    assert Names(s) && Join(s, '/') == "index.html" by { }
    assert "./" + "index.html" == "./index.html" by { }
    NormalizedDotRelative("./index.html", "index.html", s);
  }

  /** The root URL is served as the index page. */
  lemma RootIsIndex()
    ensures FilePath("/") == "./index.html"
    ensures NormalizedPath("/") == "index.html"
  {
    NormalizeIndex();
  }

  /** Any other URL made of plain names becomes "." before it, and
      normalises to the names without the leading '/'. */
  lemma NamesUrlPath(names: seq<string>)
    requires |names| >= 1 && Names(names)
    ensures FilePath(Absolute(names)) == "." + Absolute(names)
    ensures NormalizedPath(Absolute(names)) == Join(names, '/')
  {
    var j := Join(names, '/');
    UrlOfNames(names);
    NormalizedDotRelative("." + Absolute(names), j, names);
    NormalizedPathAs(Absolute(names), j);
  }

  lemma UrlOfNames(names: seq<string>)
    requires |names| >= 1 && Names(names)
    ensures Absolute(names) != "/" && "." + Absolute(names) == "./" + Join(names, '/')
  {
    JoinNamesEnd(names);
    DotUrl(Join(names, '/'));
  }

  /** A URL "/" + j is not the root, and "." + URL spells "./" + j.
   *  A lemma of its own: kept apart from the proofs that use it, the literal
   *  stays cheap to prove whatever the solver's seed. */
  lemma DotUrl(j: string)
    requires j != ""
    ensures "/" + j != "/" && "." + ("/" + j) == "./" + j
  {
    assert |"/" + j| > 1;
  }

  /** 403 exactly when the resolved path fails the prefix test, and then the
      read outcome plays no part in the response. */
  lemma ForbiddenIgnoresDisk(verb: string, url: string, dirname: string, cwd: string, o1: ReadOutcome, o2: ReadOutcome)
    ensures Respond(verb, url, dirname, cwd, o1).status == 403 <==> verb != "OPTIONS" && !Allowed(url, dirname, cwd)
    ensures Respond(verb, url, dirname, cwd, o1).status == 403 ==>
      Respond(verb, url, dirname, cwd, o1) == Respond(verb, url, dirname, cwd, o2) == ForbiddenResponse
  {
  }

  /** Any method other than OPTIONS is served the same way. */
  lemma MethodIrrelevant(m1: string, m2: string, url: string, dirname: string, cwd: string, outcome: ReadOutcome)
    requires m1 != "OPTIONS" && m2 != "OPTIONS"
    ensures Respond(m1, url, dirname, cwd, outcome) == Respond(m2, url, dirname, cwd, outcome)
  {
  }

  /** The outcome of the read decides the status of an allowed request. */
  lemma ReadOutcomeStatus(verb: string, url: string, dirname: string, cwd: string, outcome: ReadOutcome)
    requires verb != "OPTIONS" && Allowed(url, dirname, cwd)
    ensures var r := Respond(verb, url, dirname, cwd, outcome);
      && (outcome.Contents? ==> r.status == 200 && r.body == Bytes(outcome.bytes)
                                && r.headers[ContentTypeHeader] == ContentTypeOf(NormalizedPath(url)))
      && (outcome.ReadError? && outcome.code == NotFoundCode ==>
            r.status == 404 && r.body == Text("<h1>404 - Fichier non trouvé</h1><p>Chemin: " + NormalizedPath(url) + "</p>"))
      && (outcome.ReadError? && outcome.code != NotFoundCode ==>
            r.status == 500 && r.body == Text("Erreur serveur: " + outcome.code))
  {
  }

  /** The extension is looked up case-insensitively. */
  lemma ContentTypeIgnoresCase(path: string)
    ensures ContentTypeOf(Lower(path)) == ContentTypeOf(path)
  {
    ExtnameLower(path);
    LowerIdempotent(Extname(path));
  }

  /** A name and a dot-free suffix are served by the suffix's entry in the
      table, whatever its case. */
  lemma ContentTypeOfName(name: string, ext: string)
    requires name != "" && name != "." && '/' !in name && '/' !in ext && '.' !in ext
    ensures var e := Lower("." + ext);
      ContentTypeOf(name + "." + ext) == if e in MimeTypes then MimeTypes[e] else OctetStream
  {
    ExtnameOfName(name, ext);
  }

  /** A suffix that lower-cases to "png" is served as "image/png". */
  lemma PngType(name: string, ext: string, path: string)
    requires name != "" && name != "." && '/' !in name && '/' !in ext && '.' !in ext
    requires Lower("." + ext) == ".png" && path == name + "." + ext
    ensures ContentTypeOf(path) == "image/png"
  {
    ContentTypeOfName(name, ext);
  }

  /** The ".PNG" and ".png" extensions spelled as concatenations.
   *  A lemma of its own: kept apart from the proofs that use it, the literal
   *  stays cheap to prove whatever the solver's seed. */
  lemma PngSpelling(name: string)
    ensures Lower("." + "PNG") == ".png" && Lower("." + "png") == ".png"
    ensures name + ".PNG" == name + "." + "PNG" && name + ".png" == name + "." + "png"
  {
  }

  /** The extension ".PNG" is served as "image/png", like ".png". */
  lemma UpperCaseExtension(name: string)
    requires name != "" && name != "." && '/' !in name
    ensures ContentTypeOf(name + ".PNG") == ContentTypeOf(name + ".png") == "image/png"
  {
    PngSpelling(name);
    PngType(name, "PNG", name + ".PNG");
    PngType(name, "png", name + ".png");
  }

  /** With the working directory equal to the server's directory, a URL of
      plain names under it is read from the names, typed by its extension. */
  lemma ServesOwnDirectory(verb: string, dir: seq<string>, names: seq<string>)
    requires verb != "OPTIONS"
    requires |dir| >= 1 && Names(dir) && |names| >= 1 && Names(names)
    ensures Route(verb, Absolute(names), Absolute(dir), Absolute(dir))
         == ReadFile(Join(names, '/'), ContentTypeOf(Join(names, '/')))
  {
    NamesUrlPath(names);
    ResolveNames(dir, names);
    NormalizeAbsolute(dir);
    AbsoluteUnder(dir, names);
  }

  /** The normalised path of a URL other than "/", from its normal form. */
  lemma NormalizedPathAs(url: string, p: string)
    requires url != "/" && Normalize("." + url) == p
    ensures NormalizedPath(url) == p
  {
  }

  /** The check once the full path and the normal base are known. */
  lemma CheckedAs(url: string, dirname: string, cwd: string, p: string, full: string, base: string)
    requires NormalizedPath(url) == p && Resolve(cwd, p) == full && Normalize(dirname) == base
    ensures FullPath(url, cwd) == full
    ensures Allowed(url, dirname, cwd) <==> StartsWith(full, base)
  {
  }

  /** A refused request is answered 403 whatever is on disk. */
  lemma ForbiddenAs(verb: string, url: string, dirname: string, cwd: string, outcome: ReadOutcome)
    requires verb != "OPTIONS" && !Allowed(url, dirname, cwd)
    ensures Respond(verb, url, dirname, cwd, outcome) == ForbiddenResponse
  {
  }

  /** The prefix test lets a sibling directory through: with the server in
      "/base" and the process in "/base-other", a file of "/base-other"
      passes the check although it lies outside "/base". */
  lemma SiblingDirectoryPasses(verb: string, base: string, extra: string, names: seq<string>)
    requires verb != "OPTIONS"
    requires Name(base) && Name(base + extra) && |names| >= 1 && Names(names)
    ensures FullPath(Absolute(names), Absolute([base + extra])) == Absolute([base + extra] + names)
    ensures Allowed(Absolute(names), Absolute([base]), Absolute([base + extra]))
    ensures Route(verb, Absolute(names), Absolute([base]), Absolute([base + extra])).ReadFile?
  {
    var full := Absolute([base + extra] + names);
    NamesUrlPath(names);
    ResolveNames([base + extra], names);
    NormalizeAbsolute([base]);
    CheckedAs(Absolute(names), Absolute([base]), Absolute([base + extra]), Join(names, '/'), full, Absolute([base]));
    assert StartsWith(full, Absolute([base])) by {
      AbsoluteUnder([base + extra], names);
      SiblingPrefix(base, extra);
    }
  }

  lemma SiblingPrefix(base: string, extra: string)
    ensures StartsWith(Absolute([base + extra]), Absolute([base]))
  {
    assert Absolute([base + extra]) == "/" + base + extra;
    assert Absolute([base]) == "/" + base;
  }

  /** Paths are resolved against the working directory, not the server's
      directory: run from another directory, the server looks for the URL
      there, and refuses it when that directory is not under its own. */
  lemma ResolvedAgainstWorkingDirectory(verb: string, dir: seq<string>, other: seq<string>, names: seq<string>, outcome: ReadOutcome)
    requires verb != "OPTIONS"
    requires |dir| >= 1 && Names(dir) && |other| >= 1 && Names(other) && |names| >= 1 && Names(names)
    requires other[0][0] != dir[0][0]
    ensures FullPath(Absolute(names), Absolute(other)) == Absolute(other + names)
    ensures Respond(verb, Absolute(names), Absolute(dir), Absolute(other), outcome) == ForbiddenResponse
  {
    var x := other + names;
    NamesUrlPath(names);
    ResolveNames(other, names);
    NormalizeAbsolute(dir);
    CheckedAs(Absolute(names), Absolute(dir), Absolute(other), Join(names, '/'), Absolute(x), Absolute(dir));
    assert x[0] == other[0] && Names(x) by { }
    FirstCharDiffers(x, dir);
    ForbiddenAs(verb, Absolute(names), Absolute(dir), Absolute(other), outcome);
  }

  /** A URL "/../" + j is not the root, and "." + URL spells "./../" + j.
   *  A lemma of its own: kept apart from the proofs that use it, the literal
   *  stays cheap to prove whatever the solver's seed. */
  lemma TraversalSpelling(j: string)
    ensures "/../" + j != "/" && "." + ("/../" + j) == "./../" + j
  {
    assert ("/../" + j)[1] == '.';
  }

  /** The URL "/../" and names normalises to "../" and the names. */
  lemma TraversalPath(names: seq<string>)
    requires |names| >= 1 && Names(names)
    ensures NormalizedPath("/../" + Join(names, '/')) == "../" + Join(names, '/')
  {
    var j := Join(names, '/');
    TraversalSpelling(j);
    NormalizeDotParent(names);
    NormalizedPathAs("/../" + j, "../" + j);
  }

  /** A URL that climbs out of a one-segment directory resolves to the
      root: it passes exactly when the prefix test happens to match. */
  lemma TraversalEscapes(d: string, names: seq<string>)
    requires Name(d) && |names| >= 1 && Names(names)
    ensures FullPath("/../" + Join(names, '/'), Absolute([d])) == Absolute(names)
    ensures Allowed("/../" + Join(names, '/'), Absolute([d]), Absolute([d]))
        <==> StartsWith(Absolute(names), Absolute([d]))
  {
    var j := Join(names, '/');
    TraversalPath(names);
    ResolveParent(d, names);
    NormalizeAbsolute([d]);
    CheckedAs("/../" + j, Absolute([d]), Absolute([d]), "../" + j, Absolute(names), Absolute([d]));
  }

  /** In particular a name that does not share the directory's first
      character is refused. */
  lemma TraversalRefused(verb: string, d: string, names: seq<string>, url: string, outcome: ReadOutcome)
    requires verb != "OPTIONS"
    requires Name(d) && |names| >= 1 && Names(names) && names[0][0] != d[0]
    requires url == "/../" + Join(names, '/')
    ensures Respond(verb, url, Absolute([d]), Absolute([d]), outcome) == ForbiddenResponse
  {
    ClimbRefused(d, names, url);
    ForbiddenAs(verb, url, Absolute([d]), Absolute([d]), outcome);
  }

  /** The prefix test fails for such a climb. */
  lemma ClimbRefused(d: string, names: seq<string>, url: string)
    requires Name(d) && |names| >= 1 && Names(names) && names[0][0] != d[0]
    requires url == "/../" + Join(names, '/')
    ensures !Allowed(url, Absolute([d]), Absolute([d]))
  {
    TraversalEscapes(d, names);
    FirstCharDiffers(names, [d]);
  }
}
