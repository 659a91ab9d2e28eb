/** The `Product` record, its two enumerations and the static ten-item catalog. */
module Data {
  import JsString

  datatype Category = Camera | Game | Watch

  datatype Condition = Mint | NearMint | Used

  /** The string literal each category stands for. */
  function CategoryName(c: Category): (name: string) {
    match c
    case Camera => "Camera"
    case Game => "Game"
    case Watch => "Watch"
  }

  /** A catalog entry. Prices are whole numbers of yen and of dollars. */
  datatype Product = Product(
    id: string,
    title: string,
    description: string,
    priceYen: int,
    priceUsd: int,
    imageUrl: string,
    affiliateLink: string,
    category: Category,
    condition: Condition,
    isFeatured: bool)

  /** The affiliate-link hook: for now every link is used as it is. */
  function GetAffiliateLink(originalUrl: string): (link: string)
    ensures link == originalUrl
  {
    originalUrl
  }

  // The static catalog, one constant per product.

  const CanonAe1Program: Product :=
    Product("1", "Canon AE-1 Program",
      "The legendary 35mm SLR camera. Known for its robust build and exceptional image quality. A perfect entry point into film photography.",
      25000, 165,
      "https://images.unsplash.com/photo-1516035069371-29a1b244cc32?ixlib=rb-4.0.3&auto=format&fit=crop&w=1000&q=80",
      "https://ebay.com/itm/example-canon-ae1", Camera, NearMint, true)

  const GameBoyColor: Product :=
    Product("2", "Nintendo Game Boy Color (Atomic Purple)",
      "Relive the 90s with this translucent purple classic. The Game Boy Color features a color screen and backward compatibility with original Game Boy games.",
      12000, 80,
      "https://images.unsplash.com/photo-1531525645387-7f14be1bdbbd?ixlib=rb-4.0.3&auto=format&fit=crop&w=1000&q=80",
      "https://ebay.com/itm/example-gameboy", Game, Used, true)

  const SeikoSpeedtimer: Product :=
    Product("3", "Seiko 5 Sports Speedtimer",
      "A vintage automatic chronograph from the 70s. The 'Pogue' style dial is iconic among collectors. Features a day-date complication.",
      45000, 300,
      "https://images.unsplash.com/photo-1614164185128-e4ec99c436d7?ixlib=rb-4.0.3&auto=format&fit=crop&w=1000&q=80",
      "https://ebay.com/itm/example-seiko", Watch, Used, true)

  const ContaxT2: Product :=
    Product("4", "Contax T2",
      "The premium point-and-shoot film camera. Titanium body, Carl Zeiss Sonnar lens. The choice of celebrities and serious photographers.",
      150000, 1000,
      "https://images.unsplash.com/photo-1526170375885-4d8ecf77b99f?ixlib=rb-4.0.3&auto=format&fit=crop&w=1000&q=80",
      "https://ebay.com/itm/example-contax", Camera, Mint, false)

  const PokemonRed: Product :=
    Product("5", "Pokémon Red Version (JP)",
      "The original Japanese version of Pokémon Red. A piece of gaming history. Requires a Japanese Game Boy or region-free mod.",
      5000, 35,
      "https://images.unsplash.com/photo-1613771404721-1f92d799e49f?ixlib=rb-4.0.3&auto=format&fit=crop&w=1000&q=80",
      "https://ebay.com/itm/example-pokemon", Game, Used, false)

  const OlympusOm1: Product :=
    Product("6", "Olympus OM-1",
      "A compact, lightweight, and robust 35mm SLR. The OM-1 is a mechanical masterpiece, fully manual and reliable.",
      20000, 135,
      "https://images.unsplash.com/photo-1495707902641-75cac588d2e9?ixlib=rb-4.0.3&auto=format&fit=crop&w=1000&q=80",
      "https://ebay.com/itm/example-olympus", Camera, NearMint, false)

  const NikonF3: Product :=
    Product("7", "Nikon F3",
      "The professional's choice for over 20 years. This rugged SLR features a high-eyepoint viewfinder and aperture-priority automation.",
      35000, 230,
      "https://images.unsplash.com/photo-1510127034890-ba27508e9f1c?ixlib=rb-4.0.3&auto=format&fit=crop&w=1000&q=80",
      "https://ebay.com/itm/example-nikon-f3", Camera, Used, false)

  const CasioGShock: Product :=
    Product("8", "Casio G-Shock DW-5600C",
      "The original G-Shock. Built to withstand anything. A true icon of durability and functional design.",
      15000, 100,
      "https://images.unsplash.com/photo-1524805444758-089113d48a6d?ixlib=rb-4.0.3&auto=format&fit=crop&w=1000&q=80",
      "https://ebay.com/itm/example-gshock", Watch, NearMint, false)

  const Nintendo64Gold: Product :=
    Product("9", "Nintendo 64 (Gold)",
      "Limited edition Gold Nintendo 64 console. A rare find for collectors. Comes with matching controller.",
      28000, 185,
      "https://images.unsplash.com/photo-1566576912321-d58ddd7a6088?ixlib=rb-4.0.3&auto=format&fit=crop&w=1000&q=80",
      "https://ebay.com/itm/example-n64-gold", Game, Mint, true)

  const LeicaM6: Product :=
    Product("10", "Leica M6",
      "The ultimate rangefinder camera. Pure mechanical perfection with a built-in light meter. The dream camera for street photographers.",
      350000, 2300,
      "https://images.unsplash.com/photo-1534970028765-38ce47ef7d8d?ixlib=rb-4.0.3&auto=format&fit=crop&w=1000&q=80",
      "https://ebay.com/itm/example-leica-m6", Camera, Mint, true)

  /** The static catalog the product feed shows. */
  const Products: seq<Product> := [
    CanonAe1Program, GameBoyColor, SeikoSpeedtimer, ContaxT2,
    PokemonRed, OlympusOm1, NikonF3, CasioGShock,
    Nintendo64Gold, LeicaM6
  ]

  /** The catalog holds ten products whose ids are "1" to "10" in order. */
  lemma FixtureIds()
    ensures |Products| == 10
    ensures forall i :: 0 <= i < |Products| ==> Products[i].id == JsString.NatToString(i + 1)
  {
    forall i | 0 <= i < |Products|
      ensures Products[i].id == JsString.NatToString(i + 1)
    {
      if i == 9 {
        assert JsString.NatToString(10) == JsString.NatToString(1) + [JsString.DigitChar(0)];
      }
    }
  }

  /** Hence the ids are distinct digit strings, and the "newest" order is defined. */
  lemma FixtureIdsNumericAndDistinct()
    ensures forall p :: p in Products ==> JsString.IsDigitString(p.id)
    ensures forall i, j :: 0 <= i < j < |Products| ==> Products[i].id != Products[j].id
  {
    FixtureIds();
    forall i, j | 0 <= i < j < |Products|
      ensures Products[i].id != Products[j].id
    {
      JsString.NatToStringInjective(i + 1, j + 1);
    }
  }

  /** Five products of the catalog are featured: ids 1, 2, 3, 9 and 10. */
  lemma FixtureFeatured()
    ensures forall i :: 0 <= i < |Products| ==> (Products[i].isFeatured <==> i in {0, 1, 2, 8, 9})
  {
  }

  /** The catalog's dollar prices are entered by hand: the first product costs
      25000 yen and 165 dollars, not the 166 that the feed's conversion gives. */
  lemma FixturePriceNotDerived()
    ensures Products[0].priceYen == 25000 && Products[0].priceUsd == 165
    ensures Products[0].priceYen / 150 == 166
  {
  }
}
