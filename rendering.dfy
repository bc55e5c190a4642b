/**
 * The visible fields of the gift widget and the two routines that write them:
 * the rendering done when the element is connected, and the per-attribute
 * update done when one observed attribute changes.
 */
module Rendering {
  import opened Wrappers
  import opened Pricing

  /** The element's attributes; an absent attribute is the empty string. */
  datatype Attributes = Attributes(
    title: string,
    description: string,
    price: string,
    originalPrice: string,
    image: string,
    alt: string,
    link: string,
    linktext: string)

  /** An element with none of its attributes set. */
  const NoAttributes := Attributes("", "", "", "", "", "", "", "")

  /** `getAttribute(name)` for the eight observed names; `None` for any other name. */
  function AttributeValue(attrs: Attributes, name: string): Option<string>
  {
    if name == "title" then Some(attrs.title)
    else if name == "description" then Some(attrs.description)
    else if name == "price" then Some(attrs.price)
    else if name == "originalPrice" then Some(attrs.originalPrice)
    else if name == "image" then Some(attrs.image)
    else if name == "alt" then Some(attrs.alt)
    else if name == "link" then Some(attrs.link)
    else if name == "linktext" then Some(attrs.linktext)
    else None
  }

  /** `setAttribute(name, value)` on the attribute record. */
  function WithAttribute(attrs: Attributes, name: string, value: string): (r: Attributes)
    // the named attribute now reads back as the value, if it is observed at all
    ensures AttributeValue(r, name) == if AttributeValue(attrs, name).Some? then Some(value) else None
    // every other attribute keeps its value
    ensures forall n :: n != name ==> AttributeValue(r, n) == AttributeValue(attrs, n)
  {
    if name == "title" then attrs.(title := value)
    else if name == "description" then attrs.(description := value)
    else if name == "price" then attrs.(price := value)
    else if name == "originalPrice" then attrs.(originalPrice := value)
    else if name == "image" then attrs.(image := value)
    else if name == "alt" then attrs.(alt := value)
    else if name == "link" then attrs.(link := value)
    else if name == "linktext" then attrs.(linktext := value)
    else attrs
  }

  /** When the callback runs, the changed attribute already reads back as its new value. */
  predicate Reflects(attrs: Attributes, name: string, newValue: string)
  {
    AttributeValue(attrs, name).Some? ==> AttributeValue(attrs, name).value == newValue
  }

  /** The visible fields of the shadow tree. */
  datatype View = View(
    pictureHref: string,     // href of #picture-link
    imageSrc: string,        // src of the img
    imageAlt: string,        // alt of the img
    heading: string,         // text of the h3
    description: string,     // text of #description (the only p)
    prices: PriceContainer,  // #price-container
    linkText: string,        // text of #link
    linkHref: string)        // href of #link

  /** The shadow tree as the constructor builds it. */
  const Blank := View("", "", "", "", "", PriceContainer(false, Unset), "", "")

  /** Names for the visible fields, so that "only this field changes" can be said. */
  datatype Field = PictureHref | ImageSrc | ImageAlt | Heading | DescriptionText
                 | PriceBlock | LinkText | LinkHref

  datatype FieldValue = Text(text: string) | Block(block: PriceContainer)

  function Get(v: View, f: Field): FieldValue
  {
    match f
    case PictureHref => Text(v.pictureHref)
    case ImageSrc => Text(v.imageSrc)
    case ImageAlt => Text(v.imageAlt)
    case Heading => Text(v.heading)
    case DescriptionText => Text(v.description)
    case PriceBlock => Block(v.prices)
    case LinkText => Text(v.linkText)
    case LinkHref => Text(v.linkHref)
  }

  /** `a` and `b` agree on every field outside `fs`. */
  predicate SameExcept(a: View, b: View, fs: set<Field>)
  {
    forall f :: f !in fs ==> Get(a, f) == Get(b, f)
  }

  predicate IsPriceName(name: string)
  {
    name == "price" || name == "originalPrice"
  }

  /** The one field a non-price attribute is shown in. */
  function Target(name: string): Option<Field>
  {
    if name == "title" then Some(Heading)
    else if name == "description" then Some(DescriptionText)
    else if name == "image" then Some(ImageSrc)
    else if name == "alt" then Some(ImageAlt)
    else if name == "link" then Some(LinkHref)
    else if name == "linktext" then Some(LinkText)
    else None
  }

  /** The fields a change of attribute `name` may write. */
  function Touched(name: string): set<Field>
  {
    if IsPriceName(name) then {DescriptionText, PriceBlock}
    else if Target(name).Some? then {Target(name).value}
    else {}
  }

  /**
   * The rendering of `connectedCallback`, in its own order: link, image,
   * title, then the price rule inline, then the link text and target.
   */
  function ConnectedRender(fmt: Formatter, parse: Parser, attrs: Attributes, v: View): (r: View)
    ensures r.pictureHref == attrs.link && r.linkHref == attrs.link
    ensures r.imageSrc == attrs.image && r.imageAlt == attrs.alt
    ensures r.heading == attrs.title && r.linkText == attrs.linktext
    // the price fields are exactly what the single price rule computes
    ensures Projection(r.prices, r.description)
            == PriceProjection(fmt, parse, attrs.description, attrs.price, attrs.originalPrice, v.prices)
  {
    var priceContainer := v.prices;
    var originalPrice := attrs.originalPrice;
    var currentPrice := attrs.price;
    var description := attrs.description;
    var priced :=
      if currentPrice != "" then
        var formattedCurrent := fmt(currentPrice);
        if originalPrice != "" && Exceeds(parse(originalPrice), parse(currentPrice)) then
          var formattedOriginal := fmt(originalPrice);
          (PriceContainer(true, Spans(formattedOriginal, formattedCurrent)),
           description + " - " + formattedCurrent)
        else
          (priceContainer.(shown := false), description + " - " + formattedCurrent)
      else
        (priceContainer, description);
    View(attrs.link, attrs.image, attrs.alt, attrs.title, priced.1, priced.0,
         attrs.linktext, attrs.link)
  }

  /**
   * `attributeChangedCallback(name, oldValue, newValue)`; `attrs` are the
   * element's attributes after the change, which the price branch reads back.
   */
  function AttributeChanged(fmt: Formatter, parse: Parser, attrs: Attributes,
                            name: string, oldValue: string, newValue: string,
                            v: View): (r: View)
    requires Reflects(attrs, name, newValue)
    // a redundant write changes nothing
    ensures oldValue == newValue ==> r == v
    // every field the attribute is not shown in is left alone
    ensures SameExcept(v, r, Touched(name))
    // a non-price attribute is copied verbatim (no price suffix on "description")
    ensures oldValue != newValue && Target(name).Some? ==> Get(r, Target(name).value) == Text(newValue)
    // a price attribute re-runs the whole price rule over both price attributes
    ensures oldValue != newValue && IsPriceName(name) ==>
              Projection(r.prices, r.description)
              == PriceProjection(fmt, parse, attrs.description, attrs.price, attrs.originalPrice, v.prices)
  {
    if oldValue == newValue then v
    else if name == "title" then v.(heading := newValue)
    else if name == "description" then v.(description := newValue)
    else if name == "price" || name == "originalPrice" then
      var priceContainer := v.prices;
      var origPrice := attrs.originalPrice;
      var currPrice := attrs.price;
      var desc := attrs.description;
      if currPrice != "" then
        if origPrice != "" && Exceeds(parse(origPrice), parse(currPrice)) then
          var formattedOriginal := fmt(origPrice);
          var formattedCurrent := fmt(currPrice);
          v.(prices := PriceContainer(true, Spans(formattedOriginal, formattedCurrent)),
             description := desc + " - " + formattedCurrent)
        else
          var formattedCurrent := fmt(currPrice);
          v.(prices := priceContainer.(shown := false), description := desc + " - " + formattedCurrent)
      else
        v.(description := desc)
    else if name == "image" then v.(imageSrc := newValue)
    else if name == "alt" then v.(imageAlt := newValue)
    else if name == "link" then v.(linkHref := newValue)
    else if name == "linktext" then v.(linkText := newValue)
    else v
  }

  /**
   * Both call sites of the price rule agree: after a price attribute changes,
   * the price fields are what a fresh connected rendering over the same
   * attributes and the same container would show.
   */
  lemma PriceChangeAgreesWithConnectedRender(fmt: Formatter, parse: Parser, attrs: Attributes,
                                             name: string, oldValue: string, newValue: string,
                                             v: View)
    requires IsPriceName(name) && oldValue != newValue && Reflects(attrs, name, newValue)
    ensures var changed := AttributeChanged(fmt, parse, attrs, name, oldValue, newValue, v);
            var rendered := ConnectedRender(fmt, parse, attrs, v);
            changed.prices == rendered.prices && changed.description == rendered.description
  {
  }

  /**
   * The "description" branch is the one place the two routines drift apart:
   * with a current price set, changing the description drops the price suffix
   * that a connected rendering of the same attributes shows.
   */
  lemma DescriptionChangeDropsPriceSuffix(fmt: Formatter, parse: Parser, attrs: Attributes,
                                          oldValue: string, v: View)
    requires attrs.price != "" && oldValue != attrs.description
    ensures var changed := AttributeChanged(fmt, parse, attrs, "description", oldValue, attrs.description, v);
            var rendered := ConnectedRender(fmt, parse, attrs, v);
            changed.description == attrs.description && rendered.description != changed.description
  {
    var rendered := ConnectedRender(fmt, parse, attrs, v);
    assert |rendered.description| == |attrs.description| + 3 + |fmt(attrs.price)|;
  }

  /** "link" retargets only #link; #picture-link keeps the href it was given at connection. */
  lemma LinkChangeLeavesPictureLink(fmt: Formatter, parse: Parser, attrs: Attributes,
                                    oldValue: string, newValue: string, v: View)
    requires oldValue != newValue && attrs.link == newValue
    ensures var r := AttributeChanged(fmt, parse, attrs, "link", oldValue, newValue, v);
            r.linkHref == newValue && r.pictureHref == v.pictureHref
  {
    assert Get(v, PictureHref) == Get(AttributeChanged(fmt, parse, attrs, "link", oldValue, newValue, v), PictureHref);
  }
}
