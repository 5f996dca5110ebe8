/** The country record (src/lib/fetch/types.tsx). The declared type makes
    every field present; the detail view nevertheless tests `capital`,
    `languages` and `currencies` for absence, so those three are optional
    here. */
module CountryTypes {
  import opened Types

  datatype CountryName = CountryName(common: string, official: string)

  datatype Currency = Currency(name: string, symbol: string)

  datatype Country = Country(
    cca2: string,
    cca3: string,
    name: CountryName,
    region: string,
    subregion: string,
    languages: Option<seq<string>>,
    currencies: Option<seq<Currency>>,
    population: int,
    capital: Option<seq<string>>,
    flagPng: string)
}
