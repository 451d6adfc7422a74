/**
 * The "Project Intel" progression of the portfolio's Home page: the list of
 * explored project titles, the two gates derived from it (all flagship
 * projects explored, the whole mission complete) and the "unfinished
 * mission" nudge shown when the visitor leaves the section too early.
 *
 * The session state is given twice: as a value (`View`) advanced by a pure
 * `Step` function per event, which the lemmas reason about, and as the
 * class `Home`, whose fields the event handlers update in place and whose
 * methods are proved to follow `Step`.
 */
module Exploration {

  type Title = string

  /** Titles of the flagship projects, in display order. */
  const Flagship: seq<Title> := ["Poppa Vitamins", "Cakely", "Taweret"]

  /** Titles of the supporting projects, rendered only once every flagship is explored. */
  const Supporting: seq<Title> := ["Steflix", "Peach Jump"]

  /** The whole catalogue, flagship projects first. */
  const AllProjects: seq<Title> := Flagship + Supporting

  predicate NoDuplicates(s: seq<Title>) {
    forall i, j :: 0 <= i < j < |s| ==> s[i] != s[j]
  }

  /** Every entry of `s` is a title of the catalogue. */
  predicate OnlyCatalogue(s: seq<Title>) {
    forall t :: t in s ==> t in AllProjects
  }

  /** Every flagship title has been explored. */
  predicate IsFlagshipComplete(explored: seq<Title>) {
    forall t :: t in Flagship ==> t in explored
  }

  /** The mission gate as the page computes it: a length comparison, not a membership test. */
  predicate IsMissionComplete(explored: seq<Title>) {
    |explored| == |AllProjects|
  }

  /** The explored list after a click on the card titled `title`. */
  function WithExplored(explored: seq<Title>, title: Title): (r: seq<Title>)
    ensures title in r
    ensures forall t :: t in r <==> t in explored || t == title
    ensures |explored| <= |r| && r[..|explored|] == explored
    ensures title in explored ==> r == explored
    ensures title !in explored ==> |r| == |explored| + 1 && r[|explored|] == title
    ensures NoDuplicates(explored) ==> NoDuplicates(r)
  {
    if title in explored then explored else explored + [title]
  }

  /** The view state of one page session. */
  datatype View = View(explored: seq<Title>, showNudge: bool)

  /** What the visitor can do to that state. */
  datatype Event =
    | ExploreClicked(title: Title)  // a project card was clicked
    | SectionLeft                   // the project section scrolled out of view
    | NudgeClicked                  // the "Unfinished Mission Above" prompt was clicked

  /** The state on page load: nothing explored, no nudge. */
  const Initial: View := View([], false)

  function Step(v: View, e: Event): (w: View)
    ensures |v.explored| <= |w.explored| && w.explored[..|v.explored|] == v.explored
    ensures !e.ExploreClicked? ==> w.explored == v.explored
    ensures e.ExploreClicked? ==> w.explored == WithExplored(v.explored, e.title) && w.showNudge == v.showNudge
    ensures e.SectionLeft? ==> (w.showNudge <==> v.showNudge || !IsMissionComplete(v.explored))
    ensures e.NudgeClicked? ==> !w.showNudge
  {
    match e
    case ExploreClicked(t) => v.(explored := WithExplored(v.explored, t))
    case SectionLeft => if !IsMissionComplete(v.explored) then v.(showNudge := true) else v
    case NudgeClicked => v.(showNudge := false)
  }

  /** The state after a sequence of events, each seeing the state the previous one left. */
  function Run(v: View, events: seq<Event>): View
    decreases |events|
  {
    if events == [] then v else Run(Step(v, events[0]), events[1..])
  }

  /** The nudge is rendered only while it is set and the mission is incomplete. */
  predicate NudgeVisible(v: View) {
    v.showNudge && !IsMissionComplete(v.explored)
  }

  /** Every explore event names a catalogue title (the only titles a card passes). */
  predicate CatalogueEvents(events: seq<Event>) {
    forall e :: e in events && e.ExploreClicked? ==> e.title in AllProjects
  }

  /**
   * The card for `e`'s title is on screen in state `explored`: flagship cards
   * always are, supporting cards only once the flagship gate holds.
   */
  predicate Exposed(explored: seq<Title>, e: Event) {
    e.ExploreClicked? ==> e.title in Flagship || (e.title in Supporting && IsFlagshipComplete(explored))
  }

  /** Every explore event of the run clicks a card that is on screen at that moment. */
  predicate GatedRun(v: View, events: seq<Event>)
    decreases |events|
  {
    events == [] || (Exposed(v.explored, events[0]) && GatedRun(Step(v, events[0]), events[1..]))
  }

  /** A supporting title is in the list only if the flagship gate holds. */
  predicate SupportingAfterFlagship(explored: seq<Title>) {
    forall t :: t in explored && t in Supporting ==> IsFlagshipComplete(explored)
  }

  function Elems(s: seq<Title>): set<Title> {
    set t | t in s
  }

  // ---------------------------------------------------------------------------
  // The explored list

  /** Exploring a title twice leaves the same list as exploring it once. */
  lemma ExploreIdempotent(v: View, title: Title)
    ensures Run(v, [ExploreClicked(title), ExploreClicked(title)]) == Run(v, [ExploreClicked(title)])
  {
  }

  /** The list only grows: the old list is a prefix of the new one. */
  lemma {:induction false} RunGrows(v: View, events: seq<Event>)
    ensures |v.explored| <= |Run(v, events).explored|
    ensures Run(v, events).explored[..|v.explored|] == v.explored
    decreases |events|
  {
    if events != [] {
      var v' := Step(v, events[0]);
      RunGrows(v', events[1..]);
      var w := Run(v, events);
      assert w.explored[..|v.explored|] == w.explored[..|v'.explored|][..|v.explored|];
    }
  }

  /** No sequence of events introduces a duplicate into a duplicate-free list. */
  lemma {:induction false} RunKeepsNoDuplicates(v: View, events: seq<Event>)
    requires NoDuplicates(v.explored)
    ensures NoDuplicates(Run(v, events).explored)
    decreases |events|
  {
    if events != [] {
      RunKeepsNoDuplicates(Step(v, events[0]), events[1..]);
    }
  }

  /** If every explore event names a catalogue title, only catalogue titles are ever in the list. */
  lemma {:induction false} RunKeepsOnlyCatalogue(v: View, events: seq<Event>)
    requires OnlyCatalogue(v.explored) && CatalogueEvents(events)
    ensures OnlyCatalogue(Run(v, events).explored)
    decreases |events|
  {
    if events != [] {
      assert events[0] in events;
      assert forall e :: e in events[1..] ==> e in events;
      RunKeepsOnlyCatalogue(Step(v, events[0]), events[1..]);
    }
  }

  /** From page load, the list never holds a title twice. */
  lemma SessionHasNoDuplicates(events: seq<Event>)
    ensures NoDuplicates(Run(Initial, events).explored)
  {
    RunKeepsNoDuplicates(Initial, events);
  }

  /** Once every flagship is explored, the gate stays open for the rest of the session. */
  lemma FlagshipCompleteStays(v: View, events: seq<Event>)
    requires IsFlagshipComplete(v.explored)
    ensures IsFlagshipComplete(Run(v, events).explored)
  {
    var w := Run(v, events);
    RunGrows(v, events);
    forall t | t in Flagship ensures t in w.explored {
      var i :| 0 <= i < |v.explored| && v.explored[i] == t;
      assert w.explored[i] == w.explored[..|v.explored|][i];
    }
  }

  // ---------------------------------------------------------------------------
  // The length check of the mission gate

  lemma {:induction false} DistinctElems(s: seq<Title>)
    requires NoDuplicates(s)
    ensures |Elems(s)| == |s|
  {
    if s != [] {
      assert NoDuplicates(s[1..]) by {
        forall i, j | 0 <= i < j < |s[1..]| ensures s[1..][i] != s[1..][j] {
          assert s[1..][i] == s[i + 1] && s[1..][j] == s[j + 1];
        }
      }
      DistinctElems(s[1..]);
      assert Elems(s) == {s[0]} + Elems(s[1..]);
      assert s[0] !in Elems(s[1..]);
    }
  }

  lemma SubsetCard(a: set<Title>, b: set<Title>)
    requires a <= b
    ensures |a| <= |b|
    ensures |a| == |b| ==> a == b
  {
    assert b == a + (b - a);
    assert a * (b - a) == {};
  }

  /** The catalogue holds five different titles. */
  lemma CatalogueSize()
    ensures NoDuplicates(AllProjects) && |Elems(AllProjects)| == 5
  {
    assert AllProjects == ["Poppa Vitamins", "Cakely", "Taweret", "Steflix", "Peach Jump"];
    DistinctElems(AllProjects);
  }

  /**
   * For a duplicate-free list of catalogue titles, the count never exceeds the
   * catalogue size, and the length check is the same as "every catalogue title,
   * flagship and supporting, is explored".
   */
  lemma MissionCompleteMeansAllExplored(explored: seq<Title>)
    requires NoDuplicates(explored) && OnlyCatalogue(explored)
    ensures |explored| <= |AllProjects|
    ensures IsMissionComplete(explored) <==> (forall t :: t in AllProjects ==> t in explored)
    ensures IsMissionComplete(explored) <==>
              IsFlagshipComplete(explored) && (forall t :: t in Supporting ==> t in explored)
  {
    CatalogueSize();
    DistinctElems(explored);
    SubsetCard(Elems(explored), Elems(AllProjects));
    if IsMissionComplete(explored) {
      assert Elems(explored) == Elems(AllProjects);
      forall t | t in AllProjects ensures t in explored {
        assert t in Elems(AllProjects);
      }
    }
    if forall t :: t in AllProjects ==> t in explored {
      SubsetCard(Elems(AllProjects), Elems(explored));
    }
    assert forall t :: t in AllProjects <==> t in Flagship || t in Supporting;
  }

  /**
   * Along any session whose clicks name catalogue titles: no duplicates, the
   * "n/total" counter stays at most total/total, the mission gate means every
   * title is explored, and it implies the flagship gate.
   */
  lemma CatalogueSession(events: seq<Event>)
    requires CatalogueEvents(events)
    ensures NoDuplicates(Run(Initial, events).explored)
    ensures |Run(Initial, events).explored| <= |AllProjects|
    ensures IsMissionComplete(Run(Initial, events).explored) <==>
              (forall t :: t in AllProjects ==> t in Run(Initial, events).explored)
    ensures IsMissionComplete(Run(Initial, events).explored) ==> IsFlagshipComplete(Run(Initial, events).explored)
  {
    RunKeepsNoDuplicates(Initial, events);
    RunKeepsOnlyCatalogue(Initial, events);
    MissionCompleteMeansAllExplored(Run(Initial, events).explored);
  }

  /** The clicks on the cards titled `titles`, in order. */
  function Clicks(titles: seq<Title>): seq<Event>
    decreases |titles|
  {
    if titles == [] then [] else [ExploreClicked(titles[0])] + Clicks(titles[1..])
  }

  /** Clicking titles not yet explored, each once, appends exactly those titles in click order. */
  lemma {:induction false} ClicksAppend(v: View, titles: seq<Title>)
    requires NoDuplicates(v.explored + titles)
    ensures Run(v, Clicks(titles)) == View(v.explored + titles, v.showNudge)
    decreases |titles|
  {
    if titles != [] {
      var t := titles[0];
      forall i | 0 <= i < |v.explored| ensures v.explored[i] != t {
        assert (v.explored + titles)[i] == v.explored[i];
        assert (v.explored + titles)[|v.explored|] == t;
      }
      var v' := Step(v, ExploreClicked(t));
      assert v'.explored + titles[1..] == v.explored + titles;
      ClicksAppend(v', titles[1..]);
    }
  }

  /**
   * Exploring the three flagship projects opens the flagship gate but not the
   * mission gate (three of five); exploring the two supporting ones then
   * completes the mission.
   */
  lemma FlagshipThenSupporting()
    ensures var w := Run(Initial, Clicks(Flagship));
            IsFlagshipComplete(w.explored) && !IsMissionComplete(w.explored) && |w.explored| == 3
    ensures IsMissionComplete(Run(Run(Initial, Clicks(Flagship)), Clicks(Supporting)).explored)
  {
    CatalogueSize();
    assert [] + Flagship == Flagship;
    ClicksAppend(Initial, Flagship);
    ClicksAppend(View(Flagship, false), Supporting);
  }

  /** Any five different titles outside the catalogue pass the length check with no flagship explored. */
  lemma LengthCheckNeedsCatalogueTitles(strangers: seq<Title>)
    requires |strangers| == 5 && NoDuplicates(strangers)
    requires forall t :: t in strangers ==> t !in AllProjects
    ensures IsMissionComplete(Run(Initial, Clicks(strangers)).explored)
    ensures !IsFlagshipComplete(Run(Initial, Clicks(strangers)).explored)
  {
    assert [] + strangers == strangers;
    ClicksAppend(Initial, strangers);
    assert Flagship[0] in AllProjects;
  }

  /**
   * Once the mission is complete in a session that only explores catalogue
   * titles, the list stays as it is and the nudge is never shown again.
   */
  lemma {:induction false} MissionCompleteStays(v: View, events: seq<Event>)
    requires NoDuplicates(v.explored) && OnlyCatalogue(v.explored) && CatalogueEvents(events)
    requires IsMissionComplete(v.explored)
    ensures Run(v, events).explored == v.explored
    ensures !NudgeVisible(Run(v, events))
    decreases |events|
  {
    if events != [] {
      MissionCompleteMeansAllExplored(v.explored);
      assert events[0] in events;
      assert forall e :: e in events[1..] ==> e in events;
      MissionCompleteStays(Step(v, events[0]), events[1..]);
    }
  }

  // ---------------------------------------------------------------------------
  // The flagship gate on the supporting cards

  lemma {:induction false} GatedRunKeepsOrder(v: View, events: seq<Event>)
    requires GatedRun(v, events)
    requires OnlyCatalogue(v.explored) && SupportingAfterFlagship(v.explored)
    ensures OnlyCatalogue(Run(v, events).explored) && SupportingAfterFlagship(Run(v, events).explored)
    decreases |events|
  {
    if events != [] {
      var v' := Step(v, events[0]);
      if IsFlagshipComplete(v.explored) {
        FlagshipCompleteStays(v, [events[0]]);
        assert Run(v, [events[0]]) == v';
      }
      GatedRunKeepsOrder(v', events[1..]);
    }
  }

  /**
   * When supporting cards are clicked only while they are on screen, every
   * reachable state has a supporting title only after all flagship titles,
   * and a complete mission implies the flagship gate.
   */
  lemma GatedSession(events: seq<Event>)
    requires GatedRun(Initial, events)
    ensures SupportingAfterFlagship(Run(Initial, events).explored)
    ensures IsMissionComplete(Run(Initial, events).explored) ==> IsFlagshipComplete(Run(Initial, events).explored)
  {
    GatedRunKeepsOrder(Initial, events);
    RunKeepsNoDuplicates(Initial, events);
    MissionCompleteMeansAllExplored(Run(Initial, events).explored);
  }

  // ---------------------------------------------------------------------------
  // The nudge

  /**
   * Leaving the section shows the nudge exactly when the mission is still
   * incomplete, and clicking the nudge hides it.
   */
  lemma NudgeRules(v: View)
    ensures NudgeVisible(Step(v, SectionLeft)) <==> !IsMissionComplete(v.explored)
    ensures Step(v, SectionLeft).showNudge != v.showNudge ==> !IsMissionComplete(v.explored)
    ensures !NudgeVisible(Step(v, NudgeClicked))
    ensures NudgeVisible(v) ==> !IsMissionComplete(v.explored)
  {
  }

  // ---------------------------------------------------------------------------
  // The page component, updated in place by its event handlers

  class Home {
    var exploredProjects: seq<Title>
    var showNudge: bool

    function State(): View
      reads this
    {
      View(exploredProjects, showNudge)
    }

    ghost predicate Valid()
      reads this
    {
      NoDuplicates(exploredProjects)
    }

    constructor ()
      ensures Valid() && State() == Initial
    {
      exploredProjects := [];
      showNudge := false;
    }

    /** A project card was clicked. */
    method HandleExplore(title: Title)
      requires Valid()
      modifies this
      ensures Valid() && State() == Step(old(State()), ExploreClicked(title))
      ensures title in exploredProjects
    {
      if title !in exploredProjects {
        exploredProjects := exploredProjects + [title];
      }
    }

    /** The project section left the viewport. */
    method LeaveProjectSection()
      requires Valid()
      modifies this
      ensures Valid() && State() == Step(old(State()), SectionLeft)
    {
      if !IsMissionComplete(exploredProjects) {
        showNudge := true;
      }
    }

    /** The nudge was clicked; scrolling back to the section is not modelled. */
    method ClickNudge()
      requires Valid()
      modifies this
      ensures Valid() && State() == Step(old(State()), NudgeClicked)
    {
      showNudge := false;
    }

    /** Every flagship title is in the explored list. */
    method FlagshipComplete() returns (complete: bool)
      ensures complete <==> forall t :: t in Flagship ==> t in exploredProjects
    {
      complete := true;
      for i := 0 to |Flagship|
        invariant complete <==> forall j :: 0 <= j < i ==> Flagship[j] in exploredProjects
      {
        complete := complete && Flagship[i] in exploredProjects;
      }
    }

    /** The length comparison, and what it means while the list holds only catalogue titles. */
    method MissionComplete() returns (complete: bool)
      ensures complete <==> IsMissionComplete(exploredProjects)
      ensures Valid() && OnlyCatalogue(exploredProjects) ==>
                (complete <==> forall t :: t in AllProjects ==> t in exploredProjects)
    {
      complete := |exploredProjects| == |AllProjects|;
      if Valid() && OnlyCatalogue(exploredProjects) {
        MissionCompleteMeansAllExplored(exploredProjects);
      }
    }

    /** The "n/total" counter beside the mission bar. */
    method ExploredCount() returns (n: nat, total: nat)
      ensures n == |exploredProjects| && total == |AllProjects|
      ensures Valid() && OnlyCatalogue(exploredProjects) ==> n <= total
    {
      n, total := |exploredProjects|, |AllProjects|;
      if Valid() && OnlyCatalogue(exploredProjects) {
        MissionCompleteMeansAllExplored(exploredProjects);
      }
    }

    /** Whether the nudge is on screen. */
    method NudgeShown() returns (shown: bool)
      ensures shown <==> NudgeVisible(State())
      ensures shown ==> !IsMissionComplete(exploredProjects)
    {
      shown := showNudge && !IsMissionComplete(exploredProjects);
    }
  }
}
