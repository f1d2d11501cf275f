/** The event record both provider mappers produce, and JavaScript's `||`
    on optional strings, which the mappers use for every fallback. */
module ProviderEvents {
  import opened Basics

  datatype Category = Concert | Festival | Sports | Theater | Comedy | Other

  datatype Source = Ticketmaster | Eventbrite

  /** The fields of an imported event. `date` is the string handed to the
      date parser. */
  datatype EventRecord = EventRecord(
    title: string,
    description: string,
    location: string,
    venue: Option<string>,
    city: Option<string>,
    state: Option<string>,
    date: string,
    imageUrl: Option<string>,
    source: Source,
    externalId: string,
    verified: bool,
    category: Category)

  /** The location shown when the provider names no place. */
  const NoLocation: string := "Local n√£o informado"

  /** The place named in a generated description when there is no venue. */
  const SomePlace: string := "local informado"

  /** `a || b` on an optional string: the empty string and an absent value
      are both falsy. */
  function OrElse(a: Option<string>, b: string): (r: string)
    ensures a.Some? && a.value != "" ==> r == a.value
    ensures a.None? || a.value == "" ==> r == b
  {
    if a.Some? && a.value != "" then a.value else b
  }

  /** The result of `||` is never empty when its fallback is not. */
  lemma OrElseNonEmpty(a: Option<string>, b: string)
    requires b != ""
    ensures OrElse(a, b) != ""
  {
  }
}
