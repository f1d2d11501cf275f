/** `mapEventbriteToPrisma`: an Eventbrite event to an event record. */
module EventbriteMapping {
  import opened Basics
  import opened Text
  import opened ProviderEvents

  datatype Address = Address(city: string, region: string, address1: string)

  datatype Venue = Venue(name: string, address: Address)

  datatype EbEvent = EbEvent(
    id: string,
    name: string,
    description: string,
    startUtc: string,
    logoUrl: Option<string>,
    venue: Option<Venue>)

  predicate MentionsFestival(lower: string) {
    Contains(lower, "fest") || Contains(lower, "festival")
  }

  predicate MentionsConcert(lower: string) {
    Contains(lower, "concurso") || Contains(lower, "show") || Contains(lower, "concerto")
  }

  /** The category from keywords in the lower-cased name; the festival
      test comes first. */
  function CategoryOf(name: string): (c: Category)
    ensures c in {Festival, Concert, Other}
  {
    var lower := Lower(name);
    if MentionsFestival(lower) then Festival
    else if MentionsConcert(lower) then Concert
    else Other
  }

  /** Both directions of the decision table: FESTIVAL exactly when a
      festival keyword occurs, CONCERT exactly when a concert keyword does
      and no festival one, OTHER otherwise. */
  lemma CategoryTable(name: string)
    ensures CategoryOf(name) == Festival <==> MentionsFestival(Lower(name))
    ensures CategoryOf(name) == Concert <==> !MentionsFestival(Lower(name)) && MentionsConcert(Lower(name))
    ensures CategoryOf(name) == Other <==> !MentionsFestival(Lower(name)) && !MentionsConcert(Lower(name))
  {
  }

  /** The "festival" test adds nothing: a name containing "festival"
      already contains "fest". */
  lemma FestivalTestRedundant(name: string)
    ensures CategoryOf(name) == Festival <==> Contains(Lower(name), "fest")
  {
    if Contains(Lower(name), "festival") {
      ContainsPrefixOf(Lower(name), "festival", "fest");
    }
  }

  /** The mapper. */
  function MapEventbrite(e: EbEvent): (r: EventRecord)
    ensures r.source == Eventbrite && r.verified && r.externalId == e.id && r.title == e.name
    ensures r.category == CategoryOf(e.name)
    ensures r.date == e.startUtc && r.imageUrl == e.logoUrl
    ensures e.venue.None? ==> r.location == NoLocation && r.venue.None? && r.city.None? && r.state.None?
    ensures e.venue.Some? ==>
              var v := e.venue.value;
              && r.location == (if v.name != "" then v.name
                                else if v.address.address1 != "" then v.address.address1
                                else NoLocation)
              && r.venue == Some(v.name) && r.city == Some(v.address.city) && r.state == Some(v.address.region)
    ensures e.description != "" ==> r.description == e.description
    ensures e.description == "" ==>
              r.description == "Evento " + e.name + " em " +
                               (if e.venue.Some? && e.venue.value.name != "" then e.venue.value.name else SomePlace) + "."
  {
    var venueName := if e.venue.None? then None else Some(e.venue.value.name);
    var address1 := if e.venue.None? then None else Some(e.venue.value.address.address1);
    EventRecord(
      e.name,
      OrElse(Some(e.description), "Evento " + e.name + " em " + OrElse(venueName, SomePlace) + "."),
      OrElse(venueName, OrElse(address1, NoLocation)),
      venueName,
      if e.venue.None? then None else Some(e.venue.value.address.city),
      if e.venue.None? then None else Some(e.venue.value.address.region),
      e.startUtc,
      e.logoUrl,
      Eventbrite,
      e.id,
      true,
      CategoryOf(e.name))
  }

  /** A name mentioning both a festival and a show is a festival. */
  lemma FestivalBeforeConcert(name: string)
    requires Contains(Lower(name), "fest") && Contains(Lower(name), "show")
    ensures MapEventbrite(EbEvent("", name, "", "", None, None)).category == Festival
  {
  }
}
