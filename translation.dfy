/// The translation lookup of the portfolio page (script.js): a dot-separated
/// key is walked through the nested translation object, every step having
/// to reach a truthy value, and an element's text is replaced by what is
/// found, with its leading icon kept.
module Translation {
  import opened Options
  import opened Strings

  /** The part of JSON the translation file uses: strings and objects. */
  datatype Json =
    | JString(s: string)
    | JObject(fields: map<string, Json>)

  /** JavaScript truthiness: the empty string is falsy, every object truthy. */
  predicate Truthy(v: Json)
  {
    v.JObject? || v.s != ""
  }

  /** What a value becomes when spliced into text. */
  function ToText(v: Json): string
  {
    match v
    case JString(s) => s
    case JObject(_) => "[object Object]"
  }

  /** The loop of `changeLanguage`: from `v`, each key is followed only while
      the current value is truthy and its field under the key is truthy; the
      result is the final value, or nothing. */
  function Lookup(v: Json, keys: seq<string>): (r: Option<Json>)
    ensures r.Some? ==> Truthy(r.value)
    decreases |keys|
  {
    if !Truthy(v) then None
    else if |keys| == 0 then Some(v)
    else match v
      case JString(_) => None
      case JObject(f) => if keys[0] in f then Lookup(f[keys[0]], keys[1..]) else None
  }

  /** Reference definition: plain descent through the objects, with no
      regard to truthiness. */
  function Walk(v: Json, keys: seq<string>): Option<Json>
    decreases |keys|
  {
    if |keys| == 0 then Some(v)
    else match v
      case JString(_) => None
      case JObject(f) => if keys[0] in f then Walk(f[keys[0]], keys[1..]) else None
  }

  /** Every prefix of the key path reaches a truthy value. */
  predicate TruthyAlong(v: Json, keys: seq<string>): (b: bool)
    ensures b ==> Walk(v, keys).Some? && Truthy(Walk(v, keys).value)
  {
    assert keys[..|keys|] == keys;
    forall i :: 0 <= i <= |keys| ==> Walk(v, keys[..i]).Some? && Truthy(Walk(v, keys[..i]).value)
  }

  /** The lookup finds the plain walk's value exactly when every segment
      resolves to a truthy value, and nothing otherwise. */
  lemma {:induction false} LookupWalk(v: Json, keys: seq<string>)
    ensures Lookup(v, keys) == if TruthyAlong(v, keys) then Walk(v, keys) else None
    decreases |keys|
  {
    assert keys[..0] == [];
    if |keys| == 0 {
      assert TruthyAlong(v, keys) <==> Truthy(v);
    } else if !Truthy(v) {
      assert !TruthyAlong(v, keys);
    } else {
      var k := keys[0];
      assert keys[..1] == [k];
      assert Walk(v, [k]) == (if v.JObject? && k in v.fields then Some(v.fields[k]) else None) by {
        assert [k][1..] == [];
      }
      if v.JObject? && k in v.fields {
        var w := v.fields[k];
        var ks := keys[1..];
        LookupWalk(w, ks);
        forall i | 0 <= i <= |ks|
          ensures Walk(v, keys[..i + 1]) == Walk(w, ks[..i])
        {
          assert keys[..i + 1][0] == k;
          assert keys[..i + 1][1..] == ks[..i];
        }
        assert TruthyAlong(v, keys) <==> TruthyAlong(w, ks) by {
          if TruthyAlong(w, ks) {
            forall i | 0 <= i <= |keys|
              ensures Walk(v, keys[..i]).Some? && Truthy(Walk(v, keys[..i]).value)
            {
              if i > 0 {
                assert Walk(v, keys[..(i - 1) + 1]) == Walk(w, ks[..i - 1]);
              }
            }
          }
          if TruthyAlong(v, keys) {
            forall i | 0 <= i <= |ks|
              ensures Walk(w, ks[..i]).Some? && Truthy(Walk(w, ks[..i]).value)
            {
              assert Walk(v, keys[..i + 1]) == Walk(w, ks[..i]);
            }
          }
        }
        assert Walk(v, keys) == Walk(w, ks);
      } else {
        assert !TruthyAlong(v, keys) by {
          assert Walk(v, keys[..1]).None?;
        }
      }
    }
  }

  /** The `for…of` loop of `changeLanguage` over the split key, followed by
      its `if (value)` test. */
  method WalkKeys(start: Json, keys: seq<string>) returns (found: Option<Json>)
    ensures found == Lookup(start, keys)
  {
    var value: Option<Json> := Some(start);
    var i := 0;
    assert keys[0..] == keys;
    while i < |keys|
      invariant 0 <= i <= |keys|
      invariant value.Some? ==> Lookup(start, keys) == Lookup(value.value, keys[i..])
      invariant value.None? ==> Lookup(start, keys) == None
    {
      var k := keys[i];
      assert keys[i..][0] == k && keys[i..][1..] == keys[i + 1..];
      if value.Some? && Truthy(value.value) && value.value.JObject? && k in value.value.fields
        && Truthy(value.value.fields[k])
      {
        value := Some(value.value.fields[k]);
      } else {
        value := None;
        break;
      }
      i := i + 1;
    }
    if value.Some? && Truthy(value.value) {
      found := value;
    } else {
      found := None;
    }
  }

  // ---------------------------------------------------------------------
  // Elements carrying a `data-i18n` key
  // ---------------------------------------------------------------------

  /** The content of an element, abstracted: plain text, an icon element
      (`<i …>…</i>`), or markup inserted as HTML. */
  datatype Fragment =
    | Text(text: string)
    | Icon(markup: string)
    | Html(html: string)

  datatype Element = Element(key: string, content: seq<Fragment>)

  /** The first icon of the content, the one the icon regular expression
      matches. */
  function FirstIcon(content: seq<Fragment>): (r: Option<string>)
    ensures r.None? <==> forall i :: 0 <= i < |content| ==> !content[i].Icon?
    ensures r.Some? ==> exists i :: 0 <= i < |content| && content[i] == Icon(r.value)
                                   && forall j :: 0 <= j < i ==> !content[j].Icon?
  {
    if |content| == 0 then None
    else if content[0].Icon? then Some(content[0].markup)
    else FirstIcon(content[1..])
  }

  /** Replace the element's text by `text`: after its first icon and a
      space when it has one, as its whole text otherwise. */
  function Retext(content: seq<Fragment>, text: string): (r: seq<Fragment>)
    ensures FirstIcon(r) == FirstIcon(content)
  {
    match FirstIcon(content)
    case Some(m) => [Icon(m), Html(" " + text)]
    case None => [Text(text)]
  }

  /** One element under the translations of the chosen language, `start`.
      Translation keeps the key; it leaves an element whose key does not
      resolve as it was, and otherwise keeps the first icon in front of the
      translated text. */
  function Translate(e: Element, start: Json): (r: Element)
    ensures r.key == e.key
    ensures !TruthyAlong(start, Split(e.key, '.')) ==> r == e
    ensures TruthyAlong(start, Split(e.key, '.')) ==>
      var text := ToText(Walk(start, Split(e.key, '.')).value);
      && (FirstIcon(e.content).Some? ==> r.content == [Icon(FirstIcon(e.content).value), Html(" " + text)])
      && (FirstIcon(e.content).None? ==> r.content == [Text(text)])
  {
    LookupWalk(start, Split(e.key, '.'));
    match Lookup(start, Split(e.key, '.'))
    case Some(v) => e.(content := Retext(e.content, ToText(v)))
    case None => e
  }

  /** All elements, in order. */
  function TranslateAll(es: seq<Element>, start: Json): (r: seq<Element>)
    ensures |r| == |es|
    ensures forall i :: 0 <= i < |es| ==> r[i] == Translate(es[i], start)
  {
    seq(|es|, i requires 0 <= i < |es| => Translate(es[i], start))
  }

  /** Translating twice with the same translations is translating once: the
      kept icon stays first and the text is replaced again by itself. */
  lemma TranslateIdempotent(e: Element, start: Json)
    ensures Translate(Translate(e, start), start) == Translate(e, start)
  {
  }

  /** A translated label: the value at `[lang] + path` exactly when each
      segment, the language included, resolves to a truthy value, and the
      built-in default otherwise. */
  function Label(translations: map<string, Json>, lang: string, path: seq<string>, default: string): (r: string)
    ensures TruthyAlong(JObject(translations), [lang] + path) ==>
      r == ToText(Walk(JObject(translations), [lang] + path).value)
    ensures !TruthyAlong(JObject(translations), [lang] + path) ==> r == default
    ensures lang !in translations ==> r == default
  {
    LookupWalk(JObject(translations), [lang] + path);
    match Lookup(JObject(translations), [lang] + path)
    case Some(v) => ToText(v)
    case None => default
  }
}
