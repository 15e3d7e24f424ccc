/** The onboarding carousel's slide index: four slides, advanced by Next, Skip
    and an interval tick. */
module Onboarding {

  datatype Slide = Slide(title: string, subtitle: string, image: string, logo: string, tagline: string)

  /** The four slides; only the first carries the logo and tagline (an empty
      string stands for an absent field). */
  const Slides: seq<Slide> := [
    Slide("", "", "images/healthcare-intro-1.jpg", "TRYGVE", "Trusted Guardian of Life"),
    Slide("Your Health, Our Priority", "Trusted doctors and care at your doorstep.",
          "images/healthcare-intro-2.jpg", "", ""),
    Slide("Seamless Care, Delivered", "Consult, treat, and heal—hassle-free.",
          "images/healthcare-intro-3.jpg", "", ""),
    Slide("Affordable Healthcare for Everyone", "Quality care for every budget.",
          "images/healthcare-intro-4.jpg", "", "")
  ]

  const Last: nat := |Slides| - 1

  const Initial: nat := 0

  /** `nextSlide`: one forward, capped at the last slide. */
  function Next(i: nat): (j: nat)
    ensures j <= Last
    ensures i < Last ==> j == i + 1
    ensures i >= Last ==> j == Last
  {
    if i + 1 < Last then i + 1 else Last
  }

  /** `skip`: straight to the last slide. */
  function Skip(i: nat): (j: nat)
    ensures j == Last && j == |Slides| - 1
  {
    |Slides| - 1
  }

  /** The interval callback: one forward below the last slide, unchanged at it. */
  function Tick(i: nat): (j: nat)
    ensures i < Last ==> j == i + 1
    ensures i >= Last ==> j == i
  {
    if i < |Slides| - 1 then i + 1 else i
  }

  datatype Event = NextEvent | SkipEvent | TickEvent

  function Apply(i: nat, ev: Event): nat {
    match ev
    case NextEvent => Next(i)
    case SkipEvent => Skip(i)
    case TickEvent => Tick(i)
  }

  function Run(i: nat, evs: seq<Event>): nat
    decreases |evs|
  {
    if evs == [] then i else Run(Apply(i, evs[0]), evs[1..])
  }

  /** From any slide in range, any sequence of events keeps the index in range and
      never moves it backwards. */
  lemma {:induction false} RunStaysInRange(i: nat, evs: seq<Event>)
    requires i <= Last
    ensures i <= Run(i, evs) <= Last
    decreases |evs|
  {
    if evs != [] {
      RunStaysInRange(Apply(i, evs[0]), evs[1..]);
    }
  }

  /** The carousel starts at the first slide, and no sequence of events takes it
      past the last. */
  lemma RunFromStart(evs: seq<Event>)
    ensures Initial <= Run(Initial, evs) <= Last
  {
    RunStaysInRange(Initial, evs);
  }

  /** Skip is idempotent, and on every reachable index Next and Tick agree. */
  lemma TransitionFacts(i: nat)
    requires i <= Last
    ensures Skip(Skip(i)) == Skip(i)
    ensures Next(i) == Tick(i)
  {
  }

  datatype Buttons = SkipAndNext | GetStarted

  /** Skip and Next are offered until the last slide, then Get Started. */
  function ButtonsFor(i: nat): (b: Buttons)
    ensures b == SkipAndNext <==> i < Last
  {
    if i < |Slides| - 1 then SkipAndNext else GetStarted
  }

  /** The buttons follow the transitions: Skip and Next are offered exactly while
      Next still moves forward, and Get Started exactly where Skip has nowhere to go. */
  lemma ButtonsMatchProgress(i: nat)
    requires i <= Last
    ensures ButtonsFor(i) == SkipAndNext <==> Next(i) != i
    ensures ButtonsFor(i) == GetStarted <==> Skip(i) == i
  {
  }

  /** Only the first slide shows the logo. */
  lemma OnlyFirstSlideHasLogo(i: nat)
    requires i < |Slides|
    ensures Slides[i].logo != "" <==> i == 0
  {
  }
}
