/** `mapTicketmasterToPrisma`: a Ticketmaster discovery event to an event
    record. */
module TicketmasterMapping {
  import opened Basics
  import opened Text
  import opened ProviderEvents

  datatype Image = Image(url: string, ratio: string)

  datatype Classification = Classification(segment: Option<string>, genre: Option<string>)

  datatype Venue = Venue(name: string, city: string, stateCode: string, stateName: string)

  /** The provider's event; `venues` and `classifications` may be empty
      and `description` absent. */
  datatype TmEvent = TmEvent(
    id: string,
    name: string,
    description: Option<string>,
    images: seq<Image>,
    dateTime: string,
    localDate: string,
    localTime: string,
    classifications: seq<Classification>,
    venues: seq<Venue>)

  const Widescreen: string := "16_9"

  /** The index of the first image with the given ratio, if any. */
  function FindRatio(images: seq<Image>, ratio: string): (r: Option<nat>)
    ensures r.Some? ==> r.value < |images| && images[r.value].ratio == ratio &&
                        forall k :: 0 <= k < r.value ==> images[k].ratio != ratio
    ensures r.None? ==> forall k :: 0 <= k < |images| ==> images[k].ratio != ratio
  {
    if images == [] then None
    else if images[0].ratio == ratio then Some(0)
    else
      var rest := FindRatio(images[1..], ratio);
      if rest.None? then None else Some(rest.value + 1)
  }

  /** The first widescreen image, else the first image, else none. */
  function ChooseImage(images: seq<Image>): (r: Option<Image>)
    ensures r.None? <==> images == []
    ensures r.Some? ==> r.value in images
    ensures (exists k :: 0 <= k < |images| && images[k].ratio == Widescreen) ==>
              r.Some? && r.value.ratio == Widescreen &&
              exists k :: 0 <= k < |images| && images[k] == r.value &&
                          forall m :: 0 <= m < k ==> images[m].ratio != Widescreen
    ensures (forall k :: 0 <= k < |images| ==> images[k].ratio != Widescreen) && images != [] ==>
              r == Some(images[0])
  {
    var w := FindRatio(images, Widescreen);
    if w.Some? then Some(images[w.value])
    else if images != [] then Some(images[0])
    else None
  }

  /** `dateTime`, or the local date and time read as UTC. */
  function DateString(e: TmEvent): (s: string)
    ensures e.dateTime != "" ==> s == e.dateTime
    ensures e.dateTime == "" ==> s == e.localDate + "T" + e.localTime + "Z"
  {
    if e.dateTime != "" then e.dateTime else e.localDate + "T" + e.localTime + "Z"
  }

  /** The category from the first classification's segment and genre. */
  function CategoryOf(segment: Option<string>, genre: Option<string>): Category {
    if segment == Some("Music") then
      (if genre.Some? && Contains(Lower(genre.value), "festival") then Festival else Concert)
    else if segment == Some("Sports") then Sports
    else if segment == Some("Arts & Theatre") then
      (if genre.Some? && Contains(Lower(genre.value), "comedy") then Comedy else Theater)
    else Other
  }

  /** Each category comes from exactly one segment, and OTHER from every
      segment that is none of the three. */
  lemma CategoryBySegment(segment: Option<string>, genre: Option<string>)
    ensures var c := CategoryOf(segment, genre);
            && (c == Festival || c == Concert <==> segment == Some("Music"))
            && (c == Sports <==> segment == Some("Sports"))
            && (c == Comedy || c == Theater <==> segment == Some("Arts & Theatre"))
            && (c == Other <==> segment !in {Some("Music"), Some("Sports"), Some("Arts & Theatre")})
  {
  }

  /** Within a segment, the genre decides: "festival" (any case) makes a
      music event a festival, "comedy" makes a stage event a comedy. */
  lemma CategoryByGenre(segment: Option<string>, genre: string)
    ensures segment == Some("Music") ==>
              (CategoryOf(segment, Some(genre)) == Festival <==> Contains(Lower(genre), "festival"))
    ensures segment == Some("Arts & Theatre") ==>
              (CategoryOf(segment, Some(genre)) == Comedy <==> Contains(Lower(genre), "comedy"))
    ensures CategoryOf(segment, None) != Festival && CategoryOf(segment, None) != Comedy
  {
    if segment == Some("Music") {
      assert segment != Some("Arts & Theatre");
    } else if segment == Some("Arts & Theatre") {
      assert segment != Some("Music") && segment != Some("Sports");
    }
  }

  function FirstSegment(e: TmEvent): Option<string> {
    if e.classifications == [] then None else e.classifications[0].segment
  }

  function FirstGenre(e: TmEvent): Option<string> {
    if e.classifications == [] then None else e.classifications[0].genre
  }

  /** The mapper. */
  function MapTicketmaster(e: TmEvent): (r: EventRecord)
    ensures r.source == Ticketmaster && r.verified && r.externalId == e.id && r.title == e.name
    ensures r.category == CategoryOf(FirstSegment(e), FirstGenre(e))
    ensures r.date == DateString(e)
    ensures r.imageUrl == (if ChooseImage(e.images).None? then None else Some(ChooseImage(e.images).value.url))
    ensures r.imageUrl.None? <==> e.images == []
    ensures e.venues == [] ==>
              r.location == NoLocation && r.venue.None? && r.city.None? && r.state.None?
    ensures e.venues != [] ==>
              var v := e.venues[0];
              && r.location == (if v.name != "" then v.name else NoLocation)
              && r.venue == Some(v.name) && r.city == Some(v.city)
              && r.state == Some(if v.stateCode != "" then v.stateCode else v.stateName)
    ensures e.description.Some? && e.description.value != "" ==> r.description == e.description.value
    ensures e.description.None? || e.description.value == "" ==>
              r.description == "Evento " + e.name + " no " +
                               (if e.venues != [] && e.venues[0].name != "" then e.venues[0].name else SomePlace) + "."
  {
    var venue := if e.venues == [] then None else Some(e.venues[0]);
    var venueName := if venue.None? then None else Some(venue.value.name);
    var image := ChooseImage(e.images);
    EventRecord(
      e.name,
      OrElse(e.description, "Evento " + e.name + " no " + OrElse(venueName, SomePlace) + "."),
      OrElse(venueName, NoLocation),
      venueName,
      if venue.None? then None else Some(venue.value.city),
      if venue.None? then None else Some(OrElse(Some(venue.value.stateCode), venue.value.stateName)),
      DateString(e),
      if image.None? then None else Some(image.value.url),
      Ticketmaster,
      e.id,
      true,
      CategoryOf(FirstSegment(e), FirstGenre(e)))
  }

  /** Every mapped event has a location and a description to show. */
  lemma MappedEventHasText(e: TmEvent)
    ensures MapTicketmaster(e).location != "" && MapTicketmaster(e).description != ""
  {
  }
}
