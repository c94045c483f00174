/**
 * The view decisions of the shop page (src/pages/shop.tsx): which products
 * a category filter fetches, the heading, each card's image and the stock
 * badge. Stock is an integer; `None` stands for a product without one.
 */
module Shop {
  import opened Options

  datatype Category = Category(id: string, name: string)

  /** The catalogue query a filter issues. */
  datatype Fetch = AllProducts | ByCategory(categoryId: string)

  /** `handleCategoryFilter`: `null` fetches everything; any other id, the empty one included, fetches by category. */
  function FilterChoice(categoryId: Option<string>): (f: Fetch)
    ensures f == AllProducts <==> categoryId.None?
    ensures categoryId.Some? ==> f == ByCategory(categoryId.value)
  {
    match categoryId
    case None => AllProducts
    case Some(id) => ByCategory(id)
  }

  /** The value of `selectedCategoryName`: `null`, `undefined` or a name. */
  datatype SelectedName = Null | Undefined | Name(name: string)

  /** The index of the first category with the id, or `|cats|` if none has it. */
  function FirstWithId(cats: seq<Category>, id: string): (i: nat)
    ensures i <= |cats|
    ensures i < |cats| ==> cats[i].id == id
    ensures forall k :: 0 <= k < i ==> cats[k].id != id
  {
    if cats == [] then 0
    else if cats[0].id == id then 0
    else 1 + FirstWithId(cats[1..], id)
  }

  /**
   * `selectedCategoryName`: no selection (the empty id counts as none) is
   * `null`; otherwise the name of the first category with that id, or
   * `undefined` when none has it.
   */
  function SelectedCategoryName(selected: Option<string>, cats: seq<Category>): (r: SelectedName)
    ensures r == Null <==> selected.None? || selected.value == ""
    ensures r.Name? ==> exists k :: 0 <= k < |cats| && cats[k].id == selected.value && cats[k].name == r.name
    ensures r == Undefined <==>
              selected.Some? && selected.value != "" && forall k :: 0 <= k < |cats| ==> cats[k].id != selected.value
  {
    if selected.None? || selected.value == "" then Null
    else
      var i := FirstWithId(cats, selected.value);
      if i < |cats| then Name(cats[i].name) else Undefined
  }

  /** When several categories share the id, the first one's name is shown. */
  lemma FirstMatchWins(selected: string, cats: seq<Category>, k: nat)
    requires selected != "" && k < |cats| && cats[k].id == selected
    requires forall j :: 0 <= j < k ==> cats[j].id != selected
    ensures SelectedCategoryName(Some(selected), cats) == Name(cats[k].name)
  {
    var i := FirstWithId(cats, selected);
    assert i == k;
  }

  const AllProductsHeading: string := "All Products"

  /** The heading: the selected name when there is a non-empty one, else "All Products". */
  function Heading(n: SelectedName): (h: string)
    ensures n.Name? && n.name != "" ==> h == n.name
    ensures !(n.Name? && n.name != "") ==> h == AllProductsHeading
  {
    if n.Name? && n.name != "" then n.name else AllProductsHeading
  }

  /**
   * The empty id is handled differently by the two decisions: the filter
   * fetches that category's products while the heading says "All Products".
   */
  lemma EmptyIdMismatch(cats: seq<Category>)
    ensures FilterChoice(Some("")) == ByCategory("")
    ensures Heading(SelectedCategoryName(Some(""), cats)) == AllProductsHeading
  {
  }

  /** What a card shows in its image slot. */
  datatype CardImage = Picture(src: string) | Placeholder

  /** The first image when the product has a non-empty list, else the placeholder. */
  function CardImageOf(images: Option<seq<string>>): (c: CardImage)
    ensures c.Picture? <==> images.Some? && |images.value| > 0
    ensures c.Picture? ==> c.src == images.value[0]
  {
    if images.Some? && |images.value| > 0 then Picture(images.value[0]) else Placeholder
  }

  /**
   * Only the first image matters: images added after it change nothing, an
   * empty list looks like no list at all, and a shown picture is one of the
   * product's images.
   */
  lemma CardImageFacts(images: seq<string>, more: seq<string>)
    ensures images != [] ==> CardImageOf(Some(images + more)) == CardImageOf(Some(images))
    ensures CardImageOf(Some([])) == CardImageOf(None)
    ensures CardImageOf(Some(images)).Picture? ==> CardImageOf(Some(images)).src in images
  {
    if images != [] {
      assert (images + more)[0] == images[0];
    }
  }

  datatype Colour = Green | Yellow | Red

  /**
   * The stock slot. `stock && badge` renders nothing for a missing stock
   * and the bare number 0 for a stock of 0, so zero shows a stray "0"
   * rather than a badge.
   */
  datatype StockView = NoBadge | StrayZero | Badge(colour: Colour, caption: string)

  /** Decimal digits of a natural number. */
  function NatToString(n: nat): (s: string)
    ensures |s| >= 1
    ensures forall k :: 0 <= k < |s| ==> '0' <= s[k] <= '9'
  {
    var digit := ['0' + (n % 10) as char];
    if n < 10 then digit else NatToString(n / 10) + digit
  }

  const OutOfStockCaption: string := "Out of stock"

  /** The badge for a stock level. */
  function StockBadge(stock: Option<int>): (v: StockView)
    ensures v == NoBadge <==> stock.None?
    ensures v == StrayZero <==> stock == Some(0)
    ensures v.Badge? && v.colour == Green <==> stock.Some? && stock.value > 10
    ensures v.Badge? && v.colour == Yellow <==> stock.Some? && 0 < stock.value <= 10
    ensures v.Badge? && v.colour == Red <==> stock.Some? && stock.value < 0
    ensures v.Badge? && stock.value > 0 ==> v.caption == NatToString(stock.value) + " left"
    ensures v.Badge? && stock.value < 0 ==> v.caption == OutOfStockCaption
  {
    match stock
    case None => NoBadge
    case Some(n) =>
      if n == 0 then StrayZero
      else
        var colour := if n > 10 then Green else if n > 0 then Yellow else Red;
        Badge(colour, if n > 0 then NatToString(n) + " left" else OutOfStockCaption)
  }

  /** The rank of a colour: red below yellow below green. */
  function Rank(c: Colour): nat {
    match c
    case Red => 0
    case Yellow => 1
    case Green => 2
  }

  /** More stock never gives a worse colour. */
  lemma ColourMonotone(a: int, b: int)
    requires a != 0 && b != 0 && a <= b
    ensures Rank(StockBadge(Some(a)).colour) <= Rank(StockBadge(Some(b)).colour)
  {
  }

  /** The caption says "Out of stock" exactly on red badges: a count caption starts with a digit. */
  lemma OutOfStockOnlyWhenRed(stock: int)
    requires stock != 0
    ensures StockBadge(Some(stock)).caption == OutOfStockCaption <==> StockBadge(Some(stock)).colour == Red
  {
    if stock > 0 {
      var c := StockBadge(Some(stock)).caption;
      assert '0' <= c[0] <= '9';
      assert OutOfStockCaption[0] == 'O';
    }
  }
}
