/// The choice of the active navigation link (script.js,
/// `updateActiveNavLink`): the section under the scroll position, the last
/// one in document order when several overlap.
module Navigation {
  import opened Options

  /** A `.section` or `.hero` element: its `id` attribute, if any, and its
      geometry. */
  datatype Section = Section(id: Option<string>, offsetTop: int, clientHeight: int)

  /** A `.nav-link`: its `href` attribute, if any, and whether it carries
      the `active` class. */
  datatype NavLink = NavLink(href: Option<string>, active: bool)

  /** The scroll position lies in the section's band, shifted up by 100. */
  predicate Covers(s: Section, scrollY: int)
  {
    s.offsetTop - 100 <= scrollY < s.offsetTop - 100 + s.clientHeight
  }

  /** What `getAttribute('id')` contributes to "#" + current: a missing
      attribute is `null`, which prints as "null". */
  function IdText(s: Section): string
  {
    if s.id.Some? then s.id.value else "null"
  }

  /** The id of the last covering section, or "" when none covers. */
  function ActiveId(sections: seq<Section>, scrollY: int): (r: string)
    ensures r == "" || exists i :: 0 <= i < |sections| && Covers(sections[i], scrollY) && r == IdText(sections[i])
  {
    if |sections| == 0 then ""
    else
      var last := sections[|sections| - 1];
      if Covers(last, scrollY) then IdText(last) else ActiveId(sections[..|sections| - 1], scrollY)
  }

  /** The `forEach` over the sections, updating `current`. */
  method FindActiveSection(sections: seq<Section>, scrollY: int) returns (current: string)
    ensures current == ActiveId(sections, scrollY)
  {
    current := "";
    var i := 0;
    while i < |sections|
      invariant 0 <= i <= |sections|
      invariant current == ActiveId(sections[..i], scrollY)
    {
      assert sections[..i + 1][..i] == sections[..i];
      if Covers(sections[i], scrollY) {
        current := IdText(sections[i]);
      }
      i := i + 1;
    }
    assert sections[..|sections|] == sections;
  }

  /** The active id is "" with no covering section, and otherwise the id
      of a covering section after which no section covers. */
  lemma {:induction false} ActiveIdIsLastCovering(sections: seq<Section>, scrollY: int)
    ensures (forall i :: 0 <= i < |sections| ==> !Covers(sections[i], scrollY)) ==> ActiveId(sections, scrollY) == ""
    ensures (exists i :: 0 <= i < |sections| && Covers(sections[i], scrollY)) ==>
      exists i :: 0 <= i < |sections| && Covers(sections[i], scrollY)
        && ActiveId(sections, scrollY) == IdText(sections[i])
        && forall j :: i < j < |sections| ==> !Covers(sections[j], scrollY)
    decreases |sections|
  {
    if |sections| > 0 {
      var n := |sections| - 1;
      var init := sections[..n];
      ActiveIdIsLastCovering(init, scrollY);
      if Covers(sections[n], scrollY) {
        assert ActiveId(sections, scrollY) == IdText(sections[n]);
      } else {
        assert ActiveId(sections, scrollY) == ActiveId(init, scrollY);
        forall i | 0 <= i < n ensures init[i] == sections[i] && (Covers(init[i], scrollY) <==> Covers(sections[i], scrollY)) {
        }
        if k :| 0 <= k < |sections| && Covers(sections[k], scrollY) {
          assert k < n && Covers(init[k], scrollY);
          var i :| 0 <= i < n && Covers(init[i], scrollY) && ActiveId(init, scrollY) == IdText(init[i])
                   && forall j :: i < j < n ==> !Covers(init[j], scrollY);
          forall j | i < j < |sections| ensures !Covers(sections[j], scrollY) {
            if j < n {
              assert !Covers(init[j], scrollY);
            }
          }
        }
      }
    }
  }

  /** The new state of one link: active exactly when its href is "#" and
      the current id. */
  function Marked(link: NavLink, current: string): (r: NavLink)
    ensures r.href == link.href
    ensures r.active <==> link.href == Some("#" + current)
  {
    link.(active := link.href == Some("#" + current))
  }
}
