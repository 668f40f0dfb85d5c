/** The `LoopToggler` hook (assets/js/hooks/loop_toggler.js): the selected
    loop, its mirror in the plot element's `data-selected-loop`, and which
    detail panels, loop buttons, header and back button carry the `hidden`
    class.  The document is a `Page` object holding the ids present, the
    loop buttons and the set of hidden elements. */
module LoopToggler {
  import opened Wrappers

  /** An element the hook shows or hides: one found by id, or one of the
      loop buttons inside `loops-list`, which are found by selector. */
  datatype Elem = Id(id: string) | Button(handle: nat)

  const FacilitatorPrefix: string := "loop-detail-facilitator-"
  const DetailPrefix: string := "loop-detail-"

  predicate IsPrefix(p: string, s: string)
  {
    |p| <= |s| && s[..|p|] == p
  }

  function FacilitatorDetail(x: string): string { FacilitatorPrefix + x }

  function Detail(x: string): string { DetailPrefix + x }

  /** The ids matched by `[id^="loop-detail-facilitator-"]`. */
  function FacilitatorDetails(ids: set<string>): set<string>
  {
    set i | i in ids && IsPrefix(FacilitatorPrefix, i)
  }

  /** The ids matched by `[id^="loop-detail-"]`. */
  function AllDetails(ids: set<string>): set<string>
  {
    set i | i in ids && IsPrefix(DetailPrefix, i)
  }

  function IdElems(s: set<string>): set<Elem>
  {
    set i | i in s :: Id(i)
  }

  function ButtonElems(b: set<nat>): set<Elem>
  {
    set n | n in b :: Button(n)
  }

  /** What the hook found at mount time (loop_toggler.js:4-21). */
  datatype Config = Config(hasPlot: bool, hasBackButton: bool, isFacilitator: bool, isParticipant: bool)

  function MountConfig(ids: set<string>): Config
  {
    Config("plot-loops" in ids, "back-button" in ids, "resizable-sidebar" in ids, "loops-list" in ids)
  }

  /** The part of the page the hook changes. */
  datatype View = View(hidden: set<Elem>, plotSelectedLoop: Option<string>, events: seq<Option<string>>)

  /** The participant branches run only when `loops-list` is there now. */
  predicate ParticipantRuns(c: Config, ids: set<string>)
  {
    c.isParticipant && "loops-list" in ids
  }

  function IfIn(id: string, ids: set<string>): set<Elem>
  {
    if id in ids then {Id(id)} else {}
  }

  /** The facilitator branch of `toggleLoop` (loop_toggler.js:46-59). */
  function FacilitatorSelectHidden(h: set<Elem>, ids: set<string>, x: string): set<Elem>
  {
    (h + IdElems(FacilitatorDetails(ids))) - IfIn(FacilitatorDetail(x), ids)
  }

  /** The participant branch of `toggleLoop` (loop_toggler.js:61-88). */
  function ParticipantSelectHidden(h: set<Elem>, ids: set<string>, buttons: set<nat>, x: string, back: bool): set<Elem>
  {
    (((h + ButtonElems(buttons)) + IfIn("loop-header", ids)) - IfIn(Detail(x), ids)) -
    (if back then {Id("back-button")} else {})
  }

  /** The facilitator branch of `unselectLoop` (loop_toggler.js:108-114). */
  function FacilitatorUnselectHidden(h: set<Elem>, ids: set<string>): set<Elem>
  {
    h + IdElems(FacilitatorDetails(ids))
  }

  /** The participant branch of `unselectLoop` (loop_toggler.js:116-142). */
  function ParticipantUnselectHidden(h: set<Elem>, ids: set<string>, buttons: set<nat>, back: bool): set<Elem>
  {
    (((h - ButtonElems(buttons)) - IfIn("loop-header", ids)) + IdElems(AllDetails(ids))) +
    (if back then {Id("back-button")} else {})
  }

  /** `toggleLoop(x)` when `x` is not the selected loop (loop_toggler.js:31-88). */
  function SelectView(c: Config, ids: set<string>, buttons: set<nat>, x: string, v: View): View
  {
    var v1 := if c.hasPlot then v.(plotSelectedLoop := Some(x), events := v.events + [Some(x)]) else v;
    var h1 := if c.isFacilitator then FacilitatorSelectHidden(v1.hidden, ids, x) else v1.hidden;
    var h2 := if ParticipantRuns(c, ids) then ParticipantSelectHidden(h1, ids, buttons, x, c.hasBackButton) else h1;
    v1.(hidden := h2)
  }

  /** `unselectLoop()` (loop_toggler.js:91-143). */
  function UnselectView(c: Config, ids: set<string>, buttons: set<nat>, v: View): View
  {
    var v1 := if c.hasPlot then v.(plotSelectedLoop := None, events := v.events + [None]) else v;
    var h1 := if c.isFacilitator then FacilitatorUnselectHidden(v1.hidden, ids) else v1.hidden;
    var h2 := if ParticipantRuns(c, ids) then ParticipantUnselectHidden(h1, ids, buttons, c.hasBackButton) else h1;
    v1.(hidden := h2)
  }

  /** `toggleLoop(x)`: the new selection and the new view. */
  function Toggle(c: Config, ids: set<string>, buttons: set<nat>, sel: Option<string>, x: string, v: View): (Option<string>, View)
  {
    if sel == Some(x) then (None, UnselectView(c, ids, buttons, v))
    else (Some(x), SelectView(c, ids, buttons, x, v))
  }

  /** The document as far as the hook sees it. */
  class Page {
    var ids: set<string>
    var loopButtons: set<nat>
    var hidden: set<Elem>
    var plotSelectedLoop: Option<string>
    var loopSelectedEvents: seq<Option<string>>

    constructor (ids: set<string>, loopButtons: set<nat>, hidden: set<Elem>, plotSelectedLoop: Option<string>)
      ensures this.ids == ids && this.loopButtons == loopButtons && this.hidden == hidden
      ensures this.plotSelectedLoop == plotSelectedLoop && loopSelectedEvents == []
    {
      this.ids, this.loopButtons, this.hidden := ids, loopButtons, hidden;
      this.plotSelectedLoop, loopSelectedEvents := plotSelectedLoop, [];
    }

    function ViewOf(): View
      reads this
    {
      View(hidden, plotSelectedLoop, loopSelectedEvents)
    }
  }

  /** `forEach(e => e.classList.add("hidden"))`. */
  method HideAll(page: Page, es: set<Elem>)
    modifies page`hidden
    ensures page.hidden == old(page.hidden) + es
  {
    var rest := es;
    while rest != {}
      invariant rest <= es
      invariant page.hidden == old(page.hidden) + (es - rest)
      decreases |rest|
    {
      var e :| e in rest;
      page.hidden := page.hidden + {e};
      rest := rest - {e};
    }
  }

  /** `forEach(e => e.classList.remove("hidden"))`. */
  method ShowAll(page: Page, es: set<Elem>)
    modifies page`hidden
    ensures page.hidden == old(page.hidden) - es
  {
    var rest := es;
    while rest != {}
      invariant rest <= es
      invariant page.hidden == old(page.hidden) - (es - rest)
      decreases |rest|
    {
      var e :| e in rest;
      page.hidden := page.hidden - {e};
      rest := rest - {e};
    }
  }

  method FacilitatorSelect(page: Page, x: string)
    modifies page`hidden
    ensures page.hidden == FacilitatorSelectHidden(old(page.hidden), page.ids, x)
  {
    HideAll(page, IdElems(FacilitatorDetails(page.ids)));
    if FacilitatorDetail(x) in page.ids {
      page.hidden := page.hidden - {Id(FacilitatorDetail(x))};
    }
  }

  method ParticipantSelect(page: Page, x: string, back: bool)
    modifies page`hidden
    ensures page.hidden == ParticipantSelectHidden(old(page.hidden), page.ids, page.loopButtons, x, back)
  {
    HideAll(page, ButtonElems(page.loopButtons));
    if "loop-header" in page.ids {
      page.hidden := page.hidden + {Id("loop-header")};
    }
    if Detail(x) in page.ids {
      page.hidden := page.hidden - {Id(Detail(x))};
    }
    if back {
      page.hidden := page.hidden - {Id("back-button")};
    }
  }

  method ParticipantUnselect(page: Page, back: bool)
    modifies page`hidden
    ensures page.hidden == ParticipantUnselectHidden(old(page.hidden), page.ids, page.loopButtons, back)
  {
    ShowAll(page, ButtonElems(page.loopButtons));
    if "loop-header" in page.ids {
      page.hidden := page.hidden - {Id("loop-header")};
    }
    HideAll(page, IdElems(AllDetails(page.ids)));
    if back {
      page.hidden := page.hidden + {Id("back-button")};
    }
  }

  class Toggler {
    const page: Page
    const config: Config
    var selectedLoopId: Option<string>

    /** `mounted` (loop_toggler.js:2-22): nothing is selected yet. */
    constructor Mounted(page: Page)
      ensures this.page == page && config == MountConfig(page.ids) && selectedLoopId == None
    {
      this.page := page;
      config := MountConfig(page.ids);
      selectedLoopId := None;
    }

    /** `unselectLoop` (loop_toggler.js:91-143). */
    method UnselectLoop()
      modifies this, page
      ensures selectedLoopId == None
      ensures page.ids == old(page.ids) && page.loopButtons == old(page.loopButtons)
      ensures page.ViewOf() == UnselectView(config, page.ids, page.loopButtons, old(page.ViewOf()))
    {
      selectedLoopId := None;
      if config.hasPlot {
        page.plotSelectedLoop := None;
        page.loopSelectedEvents := page.loopSelectedEvents + [None];
      }
      if config.isFacilitator {
        HideAll(page, IdElems(FacilitatorDetails(page.ids)));
      }
      if config.isParticipant && "loops-list" in page.ids {
        ParticipantUnselect(page, config.hasBackButton);
      }
    }

    /** `toggleLoop` (loop_toggler.js:24-89). */
    method ToggleLoop(x: string)
      modifies this, page
      ensures page.ids == old(page.ids) && page.loopButtons == old(page.loopButtons)
      ensures (selectedLoopId, page.ViewOf()) ==
              Toggle(config, page.ids, page.loopButtons, old(selectedLoopId), x, old(page.ViewOf()))
    {
      if selectedLoopId == Some(x) {
        UnselectLoop();
        return;
      }
      selectedLoopId := Some(x);
      if config.hasPlot {
        page.plotSelectedLoop := Some(x);
        page.loopSelectedEvents := page.loopSelectedEvents + [Some(x)];
      }
      if config.isFacilitator {
        FacilitatorSelect(page, x);
      }
      if config.isParticipant && "loops-list" in page.ids {
        ParticipantSelect(page, x, config.hasBackButton);
      }
    }
  }

  // ---------------------------------------------------------------------
  // Properties of the selection state machine

  /** Toggling the selected loop is the same as unselecting it
      (loop_toggler.js:26-28, 93). */
  lemma ToggleSelectedUnselects(c: Config, ids: set<string>, buttons: set<nat>, x: string, v: View)
    ensures Toggle(c, ids, buttons, Some(x), x, v) == (None, UnselectView(c, ids, buttons, v))
  {
  }

  /** Toggling the same loop twice from no selection returns to no selection,
      and the second toggle undoes the first as `unselectLoop` does
      (loop_toggler.js:26-31). */
  lemma ToggleTwice(c: Config, ids: set<string>, buttons: set<nat>, x: string, v: View)
    ensures var (s1, v1) := Toggle(c, ids, buttons, None, x, v);
            var (s2, v2) := Toggle(c, ids, buttons, s1, x, v1);
            s1 == Some(x) && s2 == None && v2 == UnselectView(c, ids, buttons, SelectView(c, ids, buttons, x, v))
  {
  }

  /** With the plot element there, each toggle sets or deletes its
      `data-selected-loop` to match the new selection and dispatches exactly
      one `loop-selected` event carrying it; without it neither changes
      (loop_toggler.js:34-43, 96-105). */
  lemma PlotMirrorsSelection(c: Config, ids: set<string>, buttons: set<nat>, sel: Option<string>, x: string, v: View)
    ensures var (s', v') := Toggle(c, ids, buttons, sel, x, v);
            (c.hasPlot ==> v'.plotSelectedLoop == s' && v'.events == v.events + [s']) &&
            (!c.hasPlot ==> v'.plotSelectedLoop == v.plotSelectedLoop && v'.events == v.events)
  {
  }

  lemma FacilitatorIsDetail(d: string)
    requires IsPrefix(FacilitatorPrefix, d)
    ensures IsPrefix(DetailPrefix, d)
  {
    assert d[..|DetailPrefix|] == d[..|FacilitatorPrefix|][..|DetailPrefix|];
  }

  /** Facilitator view, select `x`: every facilitator detail is hidden except
      the one for `x`; the participant branch, when it also runs, shows
      `loop-detail-x` as well (loop_toggler.js:46-59, 77-81). */
  lemma FacilitatorSelectShows(c: Config, ids: set<string>, buttons: set<nat>, x: string, v: View, d: string)
    requires c.isFacilitator && d in FacilitatorDetails(ids)
    ensures Id(d) in SelectView(c, ids, buttons, x, v).hidden <==>
            d != FacilitatorDetail(x) && !(ParticipantRuns(c, ids) && d == Detail(x))
  {
  }

  /** Facilitator view, unselect: every facilitator detail is hidden
      (loop_toggler.js:108-114). */
  lemma FacilitatorUnselectShows(c: Config, ids: set<string>, buttons: set<nat>, v: View, d: string)
    requires c.isFacilitator && d in FacilitatorDetails(ids)
    ensures Id(d) in UnselectView(c, ids, buttons, v).hidden
  {
    FacilitatorIsDetail(d);
  }

  /** Participant view, select `x`: the loop buttons and the header are
      hidden, `loop-detail-x` and the back button are shown, and every other
      participant detail keeps its state (loop_toggler.js:61-88). */
  lemma ParticipantSelectShows(c: Config, ids: set<string>, buttons: set<nat>, x: string, v: View)
    requires ParticipantRuns(c, ids)
    ensures var h := SelectView(c, ids, buttons, x, v).hidden;
            (forall n :: n in buttons ==> Button(n) in h) &&
            ("loop-header" in ids ==> Id("loop-header") in h) &&
            (Detail(x) in ids ==> Id(Detail(x)) !in h) &&
            (c.hasBackButton ==> Id("back-button") !in h) &&
            forall d :: d in AllDetails(ids) && !IsPrefix(FacilitatorPrefix, d) && d != Detail(x) ==>
              (Id(d) in h <==> Id(d) in v.hidden)
  {
  }

  /** Participant view, unselect: the loop buttons and the header are shown,
      every `loop-detail-*` element, facilitator ones included, is hidden, and
      so is the back button (loop_toggler.js:116-142). */
  lemma ParticipantUnselectShows(c: Config, ids: set<string>, buttons: set<nat>, v: View)
    requires ParticipantRuns(c, ids)
    ensures var h := UnselectView(c, ids, buttons, v).hidden;
            (forall n :: n in buttons ==> Button(n) !in h) &&
            ("loop-header" in ids ==> Id("loop-header") !in h) &&
            (forall d :: d in AllDetails(ids) ==> Id(d) in h) &&
            (c.hasBackButton ==> Id("back-button") in h)
  {
  }

  /** An element the hook never addresses: not a loop button, not a detail
      panel, not the header and not the back button. */
  predicate Untouched(e: Elem)
  {
    e.Id? && !IsPrefix(DetailPrefix, e.id) && e.id != "loop-header" && e.id != "back-button"
  }

  lemma UntouchedNotDetail(e: Elem, ids: set<string>, x: string)
    requires Untouched(e)
    ensures e !in IdElems(FacilitatorDetails(ids)) && e !in IdElems(AllDetails(ids))
    ensures e != Id(Detail(x)) && e != Id(FacilitatorDetail(x))
  {
    if e in IdElems(FacilitatorDetails(ids)) {
      FacilitatorIsDetail(e.id);
    }
    assert Detail(x)[..|DetailPrefix|] == DetailPrefix;
    assert IsPrefix(FacilitatorPrefix, FacilitatorDetail(x));
    FacilitatorIsDetail(FacilitatorDetail(x));
  }

  /** No toggle changes the `hidden` class of any other element. */
  lemma OthersUnchanged(c: Config, ids: set<string>, buttons: set<nat>, sel: Option<string>, x: string, v: View, e: Elem)
    requires Untouched(e)
    ensures (e in Toggle(c, ids, buttons, sel, x, v).1.hidden) <==> (e in v.hidden)
  {
    UntouchedNotDetail(e, ids, x);
    assert e !in ButtonElems(buttons);
    assert e !in IfIn("loop-header", ids);
  }
}
