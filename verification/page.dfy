/**
  The landing page's whole UI state and the handlers the markup wires to
  it: the mobile menu flag, the pricing period flag with the prices
  derived from it, the lightbox record, and the in-page anchor handler.
  Every handler is a total function from the state before the click to
  the state after it, plus the effect the click has on the browser.
 */
module Page {
  import opened Wrappers
  import Pricing
  import Slug
  import LB = Lightbox

  datatype State = State(
    menuOpen: bool,
    isAnnual: bool,
    lightbox: LB.Lightbox,
    prices: map<nat, string>)

  /** The prices the page is first rendered with, written out literally. */
  const InitialPrices: map<nat, string> := map[79 := "R$ 79", 149 := "R$ 149", 349 := "R$ 349"]

  const Init: State := State(false, false, LB.Closed, InitialPrices)

  /** The ids of the page's sections, the targets of the in-page links. */
  const SectionIds: set<string> := {"provas", "como-funciona", "comparativo", "planos", "faq", "cta"}

  /** The navigation labels, in the order the menus list them. */
  const NavItems: seq<string> := ["Como funciona", "Provas", "Comparativo", "Planos", "FAQ"]

  /** The section each navigation label is meant to reach, in the same order. */
  const NavTargets: seq<string> := ["como-funciona", "provas", "comparativo", "planos", "faq"]

  /**
    The ids the component renders: the sections, the always-rendered menu
    drawer and pricing switch, and the lightbox overlay while it is open.
   */
  function DocumentIds(s: State): (ids: set<string>)
    ensures SectionIds <= ids
    ensures "lightbox" in ids <==> s.lightbox.isOpen
  {
    SectionIds + {"mobileMenu", "toggleAnnual", "toggleDot"}
    + (if s.lightbox.isOpen then {"lightbox"} else {})
  }

  /** The state invariant: a closed lightbox is empty and the prices match the flag. */
  predicate Inv(s: State) {
    LB.Valid(s.lightbox) && s.prices == Pricing.PricesFor(s.isAnnual)
  }

  /** The clicks the page reacts to. */
  datatype Event =
    | MenuButton(open: bool)
    | ImageClick(src: string, alt: Option<string>)
    | LightboxDismiss
    | PeriodSwitch
    | LinkClick(href: string)

  /** What a click does to the browser besides the state change. */
  datatype Effect = Effect(preventDefault: bool, scrollTo: Option<string>)

  const NoEffect: Effect := Effect(false, None)

  datatype Reaction = Reaction(next: State, effect: Effect)

  /** The menu button and the drawer's close controls set the menu flag and nothing else. */
  function ToggleMenu(s: State, open: bool): (t: State)
    ensures t.menuOpen == open
    ensures t.isAnnual == s.isAnnual && t.lightbox == s.lightbox && t.prices == s.prices
  {
    s.(menuOpen := open)
  }

  /** A thumbnail click opens the lightbox on that image and touches nothing else. */
  function OpenLightbox(s: State, src: string, alt: Option<string>): (t: State)
    ensures t.lightbox.isOpen && t.lightbox.src == src
    ensures t.lightbox.alt == "" <==> LB.Falsy(alt)
    ensures !LB.Falsy(alt) ==> Some(t.lightbox.alt) == alt
    ensures t.menuOpen == s.menuOpen && t.isAnnual == s.isAnnual && t.prices == s.prices
  {
    s.(lightbox := LB.Open(src, alt))
  }

  /** The backdrop and the close button reset the lightbox to its initial record. */
  function CloseLightbox(s: State): (t: State)
    ensures t.lightbox == Init.lightbox
    ensures t.menuOpen == s.menuOpen && t.isAnnual == s.isAnnual && t.prices == s.prices
  {
    s.(lightbox := LB.Close(s.lightbox))
  }

  /** The period switch flips the flag; the prices follow once the price effect runs. */
  function HandlePricingToggle(s: State): (t: State)
    ensures t.isAnnual != s.isAnnual
    ensures t.menuOpen == s.menuOpen && t.lightbox == s.lightbox && t.prices == s.prices
  {
    s.(isAnnual := !s.isAnnual)
  }

  /** The price effect: recomputes the displayed prices from the current flag. */
  function SyncPrices(s: State): (t: State)
    ensures t.prices == Pricing.PricesFor(t.isAnnual)
    ensures t.menuOpen == s.menuOpen && t.isAnnual == s.isAnnual && t.lightbox == s.lightbox
  {
    s.(prices := Pricing.PricesFor(s.isAnnual))
  }

  /** The fragment an href names when it is an in-page link: `#` and at least one more character. */
  function Fragment(href: string): (frag: Option<string>)
    ensures frag.Some? ==> frag.value != "" && href == "#" + frag.value
    ensures frag.None? ==> href == "" || href == "#" || href[0] != '#'
  {
    if |href| > 1 && href[0] == '#' then Some(href[1..]) else None
  }

  /** Every non-empty id written after '#' is read back as the fragment. */
  lemma FragmentOfLink(id: string)
    requires id != ""
    ensures Fragment("#" + id) == Some(id)
  {
    assert ("#" + id)[1..] == id;
  }

  /**
    The anchor handler: an in-page link suppresses the browser's jump and
    scrolls to its target when the component renders an element with that id
    (silently nothing otherwise); any other href is left to the browser.
    Either way the menu ends up closed and nothing else changes.
   */
  function HandleAnchorClick(s: State, href: string): (r: Reaction)
    ensures r.effect.preventDefault <==> Fragment(href).Some?
    ensures r.effect.scrollTo.Some? <==> Fragment(href).Some? && Fragment(href).value in DocumentIds(s)
    ensures r.effect.scrollTo.Some? ==> href == "#" + r.effect.scrollTo.value
    ensures !r.next.menuOpen
    ensures r.next.isAnnual == s.isAnnual && r.next.lightbox == s.lightbox && r.next.prices == s.prices
  {
    var effect :=
      match Fragment(href)
      case None => NoEffect
      case Some(id) => Effect(true, if id in DocumentIds(s) then Some(id) else None);
    var next := if s.menuOpen then ToggleMenu(s, false) else s;
    Reaction(next, effect)
  }

  /** One click: its handler, then the price effect. */
  function Dispatch(s: State, e: Event): (r: Reaction)
    ensures r.next.prices == Pricing.PricesFor(r.next.isAnnual)
    ensures r.next.isAnnual == (s.isAnnual != e.PeriodSwitch?)
    ensures r.next.menuOpen == (if e.MenuButton? then e.open else s.menuOpen && !e.LinkClick?)
    ensures e.ImageClick? ==> r.next.lightbox == LB.Open(e.src, e.alt)
    ensures e.LightboxDismiss? ==> r.next.lightbox == LB.Closed
    ensures !e.ImageClick? && !e.LightboxDismiss? ==> r.next.lightbox == s.lightbox
    ensures !e.LinkClick? ==> r.effect == NoEffect
    ensures e.LinkClick? ==> r.effect == HandleAnchorClick(s, e.href).effect
  {
    var handled :=
      match e
      case MenuButton(open) => Reaction(ToggleMenu(s, open), NoEffect)
      case ImageClick(src, alt) => Reaction(OpenLightbox(s, src, alt), NoEffect)
      case LightboxDismiss => Reaction(CloseLightbox(s), NoEffect)
      case PeriodSwitch => Reaction(HandlePricingToggle(s), NoEffect)
      case LinkClick(href) => HandleAnchorClick(s, href);
    Reaction(SyncPrices(handled.next), handled.effect)
  }

  /** The state after a sequence of clicks. */
  function Run(s: State, events: seq<Event>): State
    decreases |events|
  {
    if |events| == 0 then s else Run(Dispatch(s, events[0]).next, events[1..])
  }

  /** `n` clicks of the same kind. */
  function Repeat(e: Event, n: nat): (events: seq<Event>)
    ensures |events| == n
  {
    if n == 0 then [] else [e] + Repeat(e, n - 1)
  }

  /**
    The page starts with the menu and lightbox closed and monthly pricing;
    its literal prices are the monthly derivation, so the price effect run
    at mount leaves them as they are.
   */
  lemma InitialState()
    ensures Inv(Init)
    ensures !Init.menuOpen && !Init.isAnnual && !Init.lightbox.isOpen
    ensures SyncPrices(Init) == Init
  {
    Pricing.ConcreteMonthlyPrices();
  }

  /** Running the price effect on a state whose prices already match changes nothing. */
  lemma SyncPricesSettled(s: State)
    requires s.prices == Pricing.PricesFor(s.isAnnual)
    ensures SyncPrices(s) == s
  {
  }

  /** Every click keeps the invariant. */
  lemma DispatchKeepsInv(s: State, e: Event)
    requires Inv(s)
    ensures Inv(Dispatch(s, e).next)
  {
  }

  /** Every sequence of clicks keeps the invariant. */
  lemma {:induction false} RunKeepsInv(s: State, events: seq<Event>)
    requires Inv(s)
    ensures Inv(Run(s, events))
    decreases |events|
  {
    if |events| > 0 {
      DispatchKeepsInv(s, events[0]);
      RunKeepsInv(Dispatch(s, events[0]).next, events[1..]);
    }
  }

  /** Every state the page can reach from its first render satisfies the invariant. */
  lemma ReachableInv(events: seq<Event>)
    ensures Inv(Run(Init, events))
  {
    InitialState();
    RunKeepsInv(Init, events);
  }

  /** Two period switches give back the same state, prices included. */
  lemma PricingToggleTwice(s: State)
    requires Inv(s)
    ensures Dispatch(Dispatch(s, PeriodSwitch).next, PeriodSwitch).next == s
  {
  }

  /** An even number of period switches gives back the same state. */
  lemma {:induction false} EvenPricingToggles(s: State, n: nat)
    requires Inv(s)
    ensures Run(s, Repeat(PeriodSwitch, 2 * n)) == s
    decreases n
  {
    if n > 0 {
      var rest := Repeat(PeriodSwitch, 2 * n - 2);
      assert Repeat(PeriodSwitch, 2 * n) == [PeriodSwitch] + ([PeriodSwitch] + rest);
      var once := Dispatch(s, PeriodSwitch).next;
      var twice := Dispatch(once, PeriodSwitch).next;
      assert Run(s, Repeat(PeriodSwitch, 2 * n)) == Run(once, [PeriodSwitch] + rest);
      assert Run(once, [PeriodSwitch] + rest) == Run(twice, rest);
      PricingToggleTwice(s);
      EvenPricingToggles(s, n - 1);
    }
  }

  /** One period switch shows a different label on every plan. */
  lemma PricingToggleChangesLabels(s: State, k: nat)
    requires Inv(s) && k in Pricing.BasePricing
    ensures Dispatch(s, PeriodSwitch).next.prices[k] != s.prices[k]
  {
    Pricing.EveryLabelChangesWithPeriod(k);
  }

  /** Setting the menu flag twice to the same value is setting it once. */
  lemma ToggleMenuIdempotent(s: State, open: bool)
    ensures ToggleMenu(ToggleMenu(s, open), open) == ToggleMenu(s, open)
  {
  }

  /** A bare "#" link is never intercepted and never scrolls. */
  lemma BareHashPassesThrough(s: State)
    ensures HandleAnchorClick(s, "#").effect == NoEffect
  {
  }

  /** Clicking "#faq" with the drawer open closes it and scrolls to the FAQ section. */
  lemma FaqLinkFromOpenMenu(s: State)
    requires s.menuOpen
    ensures HandleAnchorClick(s, "#faq").effect == Effect(true, Some("faq"))
    ensures !HandleAnchorClick(s, "#faq").next.menuOpen
  {
    FragmentOfLink("faq");
  }

  /** A link to an id the component does not render is intercepted but scrolls nowhere. */
  lemma DanglingLinkIsSilent(s: State)
    ensures HandleAnchorClick(s, "#precos").effect == Effect(true, None)
  {
    FragmentOfLink("precos");
  }

  /** The two-word label has its space joined by '-'. */
  lemma ComoFuncionaSlug()
    ensures Slug.NavSlug("Como funciona") == "como-funciona"
  {
    var lowered := Slug.ToLowerAscii("Como funciona");
    assert |lowered| == 13;
    assert lowered == "como funciona";
    assert Slug.IndexOf("como funciona", ' ') == 4;
  }

  /** The one-word labels are only lower-cased. */
  lemma ProvasSlug()
    ensures Slug.NavSlug("Provas") == "provas"
  {
    assert Slug.ToLowerAscii("Provas") == "provas";
    Slug.NavSlugWithoutSpace("Provas");
  }

  lemma ComparativoSlug()
    ensures Slug.NavSlug("Comparativo") == "comparativo"
  {
    assert Slug.ToLowerAscii("Comparativo") == "comparativo";
    Slug.NavSlugWithoutSpace("Comparativo");
  }

  lemma PlanosSlug()
    ensures Slug.NavSlug("Planos") == "planos"
  {
    assert Slug.ToLowerAscii("Planos") == "planos";
    Slug.NavSlugWithoutSpace("Planos");
  }

  lemma FaqSlug()
    ensures Slug.NavSlug("FAQ") == "faq"
  {
    assert Slug.ToLowerAscii("FAQ") == "faq";
    Slug.NavSlugWithoutSpace("FAQ");
  }

  /** The slug of each navigation label is the id of the section it is meant to reach. */
  lemma NavSlugReachesSection(i: nat)
    requires i < |NavItems|
    ensures Slug.NavSlug(NavItems[i]) == NavTargets[i]
    ensures NavTargets[i] in SectionIds
  {
    if i == 0 {
      ComoFuncionaSlug();
    } else if i == 1 {
      ProvasSlug();
    } else if i == 2 {
      ComparativoSlug();
    } else if i == 3 {
      PlanosSlug();
    } else {
      FaqSlug();
    }
  }

  /** Every navigation link is intercepted and scrolls to the section it is meant to reach. */
  lemma NavLinksReachSections(s: State, i: nat)
    requires i < |NavItems|
    ensures HandleAnchorClick(s, Slug.NavHref(NavItems[i])).effect == Effect(true, Some(NavTargets[i]))
  {
    NavSlugReachesSection(i);
    FragmentOfLink(NavTargets[i]);
  }

  /** A navigation href is an in-page link to the label's slug, unless the label is empty. */
  lemma NavHrefFragment(item: string)
    ensures Fragment(Slug.NavHref(item)) == if item == "" then None else Some(Slug.NavSlug(item))
  {
    if item != "" {
      FragmentOfLink(Slug.NavSlug(item));
    }
  }

  /** The call-to-action buttons ("#cta") are intercepted and scroll to the closing section. */
  lemma CtaLinkReachesSection(s: State)
    ensures HandleAnchorClick(s, "#cta").effect == Effect(true, Some("cta"))
  {
    FragmentOfLink("cta");
  }
}
