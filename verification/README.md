# DATVUS landing page — UI state model

The DATVUS landing page is a single React component (`src/App.jsx`). Apart
from its markup it holds a small amount of client-side state:

- the mobile menu flag (`isMobileMenuOpen`);
- the pricing period flag (`isAnnualPricing`) and the price labels derived
  from it through a fixed plan table (`basePricing`);
- the image lightbox record `{isOpen, src, alt}`.

It also has one click handler for in-page anchors (`handleAnchorClick`), and
it derives each navigation link's fragment id from its label.

This project models that state as one immutable Dafny record (`Page.State`).
Every handler is a pure function from the state before a click to the state
after it. The anchor handler also returns the effect the click has on the
browser: whether the default jump is suppressed, and which element, if any,
is scrolled into view. The string helpers the page relies on are each paired
with a lemma that pins down what they compute:

- the decimal rendering of a number inside a template literal, with its
  inverse (the two round trips are proved);
- `toLowerCase`, stated per character, with idempotence and its fixed points;
- `indexOf`, with the first-occurrence characterisation;
- `replace` with a string pattern, stated per position and by how many
  occurrences it removes.

Modules, one file each:

- `wrappers.dfy`: `Option`, where `None` stands for `undefined` / `null`.
- `decimal.dfy`: the number-to-decimal-string conversion and its inverse.
- `slug.dfy`: ASCII lower-casing, `indexOf`, first-occurrence `replace`, and the navigation slug built from them.
- `pricing.dfy`: the plan table, the `"R$ "` labels, the derived prices, and the price effect's loop.
- `lightbox.dfy`: the lightbox record, open/close, and its invariant.
- `page.dfy`: the whole UI state, the handlers, the dispatch of one click, runs of clicks, and the anchor handler.

How the code was followed:

- The anchor handler's "does the element exist" check is a lookup in the
  set of ids the component renders (`Page.DocumentIds`). These are the six
  section ids, plus the ids of the menu drawer and the pricing switch, which
  are always rendered (`mobileMenu`, `toggleAnnual`, `toggleDot`). While the
  lightbox is open they also include `lightbox`.
- The navigation labels in the code are plain ASCII: "Como funciona",
  "Provas", "Comparativo", "Planos" and "FAQ". None of them has an accented
  character. The model follows the code and proves that every label's slug
  is the id of an existing section.
- The anchor handler calls `toggleMenu(false)` only when the menu is open.
  Either way the menu ends up closed, and the model states exactly that.

## Model

| member | source | states |
|---|---|---|
| Decimal.FromNat | src/App.jsx:56 | the decimal text of an amount is a canonical digit string (no leading zero), starting with '0' only for zero |
| Decimal.ToNatFromNat | src/App.jsx:56 | reading the decimal text of an amount back gives the amount |
| Decimal.FromNatToNat | src/App.jsx:56 | every canonical digit string is the decimal text of the number it denotes |
| Decimal.FromNatInjective | src/App.jsx:56 | two amounts have the same decimal text exactly when they are equal |
| Pricing.AmountFollowsFlag | src/App.jsx:55 | a plan shows its annual amount when the annual flag is set and its monthly amount otherwise |
| Pricing.PriceLabel | src/App.jsx:56 | a price label starts with the currency prefix "R$ " followed by at least one character |
| Pricing.ParseOfPriceLabel | src/App.jsx:56 | the label `R$ ${price}` reads back as exactly the price it was built from |
| Pricing.PriceLabelOfParse | src/App.jsx:56 | every text that reads as a price label for an amount is that amount's label |
| Pricing.PriceLabelInjective | src/App.jsx:56 | two amounts get the same label exactly when they are equal |
| Pricing.PricesFor | src/App.jsx:51-59 | the derived prices have a label for exactly the plan ids of the table |
| Pricing.RecomputePrices | src/App.jsx:51-59 | the price effect's walk over the table keys, in `Object.keys` order, yields the reference derivation `PricesFor` |
| Pricing.PricesShowSelectedAmount | src/App.jsx:51-59 | the prices have one label per plan of the table, reading as the annual amount when the flag is set and as the monthly amount otherwise |
| Pricing.LabelsFollowFlag | src/App.jsx:53-56 | for every plan, an unset flag shows "R$ " + monthly and a set flag shows "R$ " + annual |
| Pricing.EveryLabelChangesWithPeriod | src/App.jsx:15-19 | for every plan of the table, the annual label differs from the monthly label |
| Pricing.MonthlyLabels | src/App.jsx:16-18 | the monthly amounts 79, 149 and 349 are labelled "R$ 79", "R$ 149" and "R$ 349" |
| Pricing.AnnualLabels | src/App.jsx:16-18 | the annual amounts 790, 1490 and 3490 are labelled "R$ 790", "R$ 1490" and "R$ 3490" |
| Pricing.PricesByPlan | src/App.jsx:15-19 | the derived prices hold exactly the three plan ids 79, 149 and 349, each with the label of its selected amount |
| Pricing.ConcreteMonthlyPrices | src/App.jsx:15-19 | the monthly prices are {79: "R$ 79", 149: "R$ 149", 349: "R$ 349"} |
| Pricing.ConcreteAnnualPrices | src/App.jsx:15-19 | the annual prices are {79: "R$ 790", 149: "R$ 1490", 349: "R$ 3490"} |
| Lightbox.Open | src/App.jsx:39-41 | opening shows the lightbox with the source as given; the alt becomes '' exactly when the given alt is absent or empty, and is kept otherwise |
| Lightbox.Close | src/App.jsx:43-45 | closing, from any prior record, gives a closed lightbox with empty source and alt |
| Lightbox.CloseAbsorbs | src/App.jsx:43-45 | closing twice is closing once, and closing after any open gives the same record as any other close |
| Page.ToggleMenu | src/App.jsx:35-37 | setting the menu flag sets it to the given value and leaves the pricing flag, prices and lightbox alone |
| Page.ToggleMenuIdempotent | src/App.jsx:35-37 | setting the menu flag twice to the same value is the same as setting it once |
| Page.OpenLightbox | src/App.jsx:39-41 | a thumbnail click opens the lightbox on the given source, with alt '' exactly for an absent or empty alt and the given alt otherwise, and touches nothing else |
| Page.CloseLightbox | src/App.jsx:43-45 | closing resets the lightbox to the record the page starts with and touches nothing else |
| Page.HandlePricingToggle | src/App.jsx:47-49 | the pricing switch flips the period flag and leaves the rest alone |
| Page.SyncPrices | src/App.jsx:51-59 | after the price effect, the prices are the derivation for the current flag; nothing else changes |
| Page.SyncPricesSettled | src/App.jsx:51-59 | the price effect changes nothing when the prices already match the flag, so running it after every click equals running it when the flag changed |
| Page.DocumentIds | src/App.jsx:65 | the ids the lookup can find always include every section id, and include "lightbox" exactly while the lightbox is open |
| Page.Fragment | src/App.jsx:63 | an href is an in-page link exactly when it is '#' followed by a non-empty id; an empty href, a bare '#' or an href not starting with '#' is not |
| Page.FragmentOfLink | src/App.jsx:63 | '#' followed by any non-empty id is read back as that id |
| Page.HandleAnchorClick | src/App.jsx:61-73 | the default jump is suppressed exactly for in-page links; a scroll happens exactly when the fragment names an element the component renders, and it targets that element; the menu ends closed; flag, prices and lightbox are unchanged |
| Page.BareHashPassesThrough | src/App.jsx:63 | a bare "#" is neither intercepted nor scrolled |
| Page.FaqLinkFromOpenMenu | src/App.jsx:61-73 | clicking "#faq" with the drawer open suppresses the jump, scrolls to the FAQ section and closes the drawer |
| Page.DanglingLinkIsSilent | src/App.jsx:65-68 | a link to an id the component does not render is intercepted and scrolls nowhere |
| Page.CtaLinkReachesSection | src/App.jsx:117 | the "#cta" buttons are intercepted and scroll to the closing section |
| Page.Dispatch | src/App.jsx:35-73 | one click changes only what its handler owns; the prices then match the flag; only anchor clicks have a browser effect, and it is the one the anchor handler gives |
| Page.InitialState | src/App.jsx:22-29 | the page starts with the menu and lightbox closed and the monthly period; the literal initial prices equal the monthly derivation, so the mount-time price effect leaves them unchanged |
| Page.DispatchKeepsInv | src/App.jsx:39-59 | every click keeps the invariant: a closed lightbox is empty, and the prices match the flag |
| Page.RunKeepsInv | src/App.jsx:39-59 | every sequence of clicks keeps the invariant |
| Page.ReachableInv | src/App.jsx:22-59 | every state reachable from the first render satisfies the invariant |
| Page.PricingToggleTwice | src/App.jsx:47-59 | two period switches restore the whole state, prices included |
| Page.EvenPricingToggles | src/App.jsx:47-59 | any even number of period switches restores the whole state |
| Page.PricingToggleChangesLabels | src/App.jsx:51-59 | one period switch changes the displayed label of every plan |
| Slug.LowerAscii | src/App.jsx:91 | an upper-case ASCII letter becomes the lower-case letter at the same alphabet position; every other character is kept; the result is never upper-case |
| Slug.ToLowerAscii | src/App.jsx:91 | lower-casing keeps the length, turns each position into the lower-cased character of the same position, and leaves no upper-case ASCII letter |
| Slug.ToLowerIdempotent | src/App.jsx:91 | lower-casing an already lower-cased string changes nothing |
| Slug.ToLowerFixedExactly | src/App.jsx:91 | lower-casing leaves a string unchanged exactly when it has no upper-case ASCII letter |
| Slug.IndexOf | src/App.jsx:91 | `indexOf` gives -1 or a position inside the string |
| Slug.IndexOfFirst | src/App.jsx:91 | `indexOf` gives -1 exactly when the character is absent, and otherwise the position of its first occurrence |
| Slug.ReplaceFirst | src/App.jsx:91 | `replace` with a one-character pattern keeps the length of the string |
| Slug.ReplaceFirstAt | src/App.jsx:91 | `replace` rewrites exactly the position `indexOf` reports and keeps the length |
| Slug.ReplaceFirstCount | src/App.jsx:91 | `replace` removes exactly one occurrence of the searched character when there is one; later occurrences survive |
| Slug.LowerKeepsFirstSpace | src/App.jsx:91 | lower-casing neither creates nor moves the first space |
| Slug.NavSlug | src/App.jsx:91 | the slug of a navigation label has the label's length |
| Slug.NavSlugAt | src/App.jsx:91 | a slug has the label's length; each letter is lowered, the label's first space becomes '-', and no upper-case letter remains |
| Slug.NavSlugWithoutSpace | src/App.jsx:91 | a label without a space is only lowered |
| Slug.NavHref | src/App.jsx:91 | a navigation href is '#' followed by the label's slug, one character longer than the label |
| Page.ComoFuncionaSlug | src/App.jsx:75 | "Como funciona" links to "como-funciona" |
| Page.ProvasSlug | src/App.jsx:75 | "Provas" links to "provas" |
| Page.ComparativoSlug | src/App.jsx:75 | "Comparativo" links to "comparativo" |
| Page.PlanosSlug | src/App.jsx:75 | "Planos" links to "planos" |
| Page.FaqSlug | src/App.jsx:75 | "FAQ" links to "faq" |
| Page.NavSlugReachesSection | src/App.jsx:75-111 | the slug of each navigation label is the intended section id, and that id is a section of the page |
| Page.NavHrefFragment | src/App.jsx:63 | the anchor handler reads every navigation href of a non-empty label as an in-page link to that label's slug; an empty label gives a bare "#", which it does not intercept |
| Page.NavLinksReachSections | src/App.jsx:110-112 | every navigation link is intercepted and scrolls to the section it is meant to reach |

## Left out

- The scroll-reveal library initialisation (src/App.jsx:31-33) is left out: it is a third-party call with no contract.
- All markup, class names, styles, copy text, image paths, external links and the footer year are left out. These are presentation, static strings or a clock read. This includes the "/ano" or "/mês" suffix chosen from the flag.
- The smooth scroll animation of `scrollIntoView` is left out. The model records only which element is scrolled to.
- React render and effect scheduling is left out. The price effect is applied right after each handler (`Page.Dispatch`), so the one render in which the flag has flipped but the prices have not is not modelled.
- Page.HandleAnchorClick: `document.querySelector` is modelled as an exact id lookup. The real call parses the href as a CSS selector. A fragment that is not a valid selector (such as "#1x") would throw before the menu is closed. A fragment such as "#a b" is a descendant selector. Every href the page wires to the handler is a plain identifier, so this case does not arise on the page.
- Page.HandleAnchorClick: an anchor without an `href` attribute (`getAttribute` returns null) would make the handler throw. Every anchor wired to the handler has an href, so the model takes the href as a string.
- Page.DocumentIds: only the ids this component renders are known. The element the component is mounted into, and any other id of the host document, are not modelled, so a fragment naming such an id is treated as missing.
- Lightbox.Open: `alt || ''` is modelled for string, `undefined` and `null` arguments only. The callers pass the image's `alt` property, which is always a string. Other falsy values (0, false, NaN) are not modelled, and neither is a non-string `src`.
- Slug.LowerAscii: lowers ASCII letters only. The full Unicode case mapping of `toLowerCase` is not modelled, because every navigation label is ASCII.
- Decimal.FromNat: JavaScript renders numbers of 10^21 and above in exponent notation. That is not modelled, because every amount comes from the fixed table and is below 10^4.
