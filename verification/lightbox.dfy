/**
  The image lightbox: a record saying whether the overlay is shown and,
  while it is, which image source and caption it shows.
 */
module Lightbox {
  import opened Wrappers

  datatype Lightbox = Lightbox(isOpen: bool, src: string, alt: string)

  /** The record the page starts with and every close returns to. */
  const Closed: Lightbox := Lightbox(false, "", "")

  /** A closed lightbox carries no image. */
  predicate Valid(lb: Lightbox) {
    !lb.isOpen ==> lb.src == "" && lb.alt == ""
  }

  /** JavaScript's `alt || ''` for an alt that is a string, `undefined` or `null`. */
  predicate Falsy(alt: Option<string>) {
    alt == None || alt == Some("")
  }

  /**
    Opening shows the given source as is, and the given alt text, which
    becomes '' exactly when it is absent or empty.
   */
  function Open(src: string, alt: Option<string>): (lb: Lightbox)
    ensures lb.isOpen && lb.src == src
    ensures lb.alt == "" <==> Falsy(alt)
    ensures !Falsy(alt) ==> Some(lb.alt) == alt
    ensures Valid(lb)
  {
    Lightbox(true, src, alt.GetOr(""))
  }

  /** Closing, from any prior record, gives back the initial closed record. */
  function Close(prior: Lightbox): (lb: Lightbox)
    ensures !lb.isOpen && lb.src == "" && lb.alt == ""
    ensures Valid(lb)
  {
    Closed
  }

  /** Closing twice is closing once; closing after any open is the same as closing. */
  lemma CloseAbsorbs(lb: Lightbox, src: string, alt: Option<string>)
    ensures Close(Close(lb)) == Close(lb)
    ensures Close(Open(src, alt)) == Close(lb)
  {
  }
}
