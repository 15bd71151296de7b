/** The event document: its category and status enumerations, the embedded
    ticket tiers, and what `Event.create` fills in and rejects. */
module EventSchema {
  import opened Base
  import Text

  datatype Category = Conference | Workshop | Meetup | Concert | Webinar | Festival | Sports | Other

  datatype EventStatus = Pending | Published | Cancelled | Completed | SoldOut | Ongoing

  function CategoryName(c: Category): string {
    match c
    case Conference => "Conference"
    case Workshop => "Workshop"
    case Meetup => "Meetup"
    case Concert => "Concert"
    case Webinar => "Webinar"
    case Festival => "Festival"
    case Sports => "Sports"
    case Other => "Other"
  }

  /** The category enum validator: only the eight listed names are accepted. */
  function ParseCategory(s: string): (r: Option<Category>)
    ensures r.Some? ==> CategoryName(r.value) == s
    ensures r.None? ==> forall c: Category :: CategoryName(c) != s
  {
    if s == "Conference" then Some(Conference)
    else if s == "Workshop" then Some(Workshop)
    else if s == "Meetup" then Some(Meetup)
    else if s == "Concert" then Some(Concert)
    else if s == "Webinar" then Some(Webinar)
    else if s == "Festival" then Some(Festival)
    else if s == "Sports" then Some(Sports)
    else if s == "Other" then Some(Other)
    else None
  }

  function StatusName(s: EventStatus): string {
    match s
    case Pending => "pending"
    case Published => "published"
    case Cancelled => "cancelled"
    case Completed => "completed"
    case SoldOut => "sold-out"
    case Ongoing => "ongoing"
  }

  /** The status enum validator: only the six listed names are accepted. */
  function ParseStatus(s: string): (r: Option<EventStatus>)
    ensures r.Some? ==> StatusName(r.value) == s
    ensures r.None? ==> forall t: EventStatus :: StatusName(t) != s
  {
    if s == "pending" then Some(EventStatus.Pending)
    else if s == "published" then Some(Published)
    else if s == "cancelled" then Some(EventStatus.Cancelled)
    else if s == "completed" then Some(Completed)
    else if s == "sold-out" then Some(SoldOut)
    else if s == "ongoing" then Some(Ongoing)
    else None
  }

  /** One embedded ticket tier; `id` is the sub-document's automatic ObjectId. */
  datatype TicketTier = TicketTier(id: Id, ticketType: string, price: int, quantity: int)

  /** A tier as a request body carries it: an existing tier keeps its id,
      a new one has none and is given a fresh one. */
  datatype TierDraft = TierDraft(id: Option<Id>, ticketType: string, price: int, quantity: int)

  datatype Location = Location(address: Option<string>, city: Option<string>, state: Option<string>,
                               country: Option<string>, pincode: Option<string>)

  /** The paths of an event document. `availableTickets`, which two handlers
      read and one increments, is not among them: under the schema's strict
      mode it is never stored, reads as undefined and is stripped from updates. */
  datatype Event = Event(
    id: Id, title: string, description: string, category: Category, organizer: Id,
    startDate: int, endDate: int, isOnline: Option<bool>, location: Location,
    onlineLink: string, bannerImage: string, tickets: seq<TicketTier>,
    status: EventStatus, isApproved: bool, isDeleted: bool, updatedAt: int)

  /** The `required` validator on a string path rejects the empty string. */
  predicate TiersValid(tiers: seq<TierDraft>) {
    forall k :: 0 <= k < |tiers| ==> tiers[k].ticketType != ""
  }

  /** Tiers as stored: each draft keeps its id or receives `firstFresh + k`. */
  function CastTiers(tiers: seq<TierDraft>, firstFresh: Id): (r: seq<TicketTier>)
    ensures |r| == |tiers|
    ensures forall k :: 0 <= k < |tiers| ==>
      r[k].ticketType == tiers[k].ticketType && r[k].price == tiers[k].price
      && r[k].quantity == tiers[k].quantity
      && r[k].id == (if tiers[k].id.Some? then tiers[k].id.value else firstFresh + k)
  {
    seq(|tiers|, k requires 0 <= k < |tiers| =>
      TicketTier(if tiers[k].id.Some? then tiers[k].id.value else firstFresh + k,
                 tiers[k].ticketType, tiers[k].price, tiers[k].quantity))
  }

  /** `Event.create`: the title is trimmed, absent optional paths take their
      defaults, and validation fails (None) on a missing required path or a
      category outside the enum. */
  function NewEvent(id: Id, organizer: Id, title: string, description: string,
                    category: Option<string>, startDate: Option<int>, endDate: Option<int>,
                    isOnline: Option<bool>, onlineLink: Option<string>, location: Location,
                    tiers: seq<TierDraft>, bannerImage: string, now: int): (r: Option<Event>)
    ensures r.Some? <==>
      Text.Trim(title) != "" && description != "" && startDate.Some? && endDate.Some?
      && TiersValid(tiers) && (category.None? || ParseCategory(category.value).Some?)
    ensures r.Some? ==>
      var e := r.value;
      && e.id == id && e.organizer == organizer && e.title == Text.Trim(title)
      && e.category == (if category.None? then Other else ParseCategory(category.value).value)
      && e.status == EventStatus.Pending && !e.isDeleted && !e.isApproved
      && e.isOnline == Some(isOnline.GetOr(false)) && e.onlineLink == onlineLink.GetOr("")
      && e.tickets == CastTiers(tiers, id + 1)
  {
    var cat := if category.None? then Some(Other) else ParseCategory(category.value);
    if Text.Trim(title) == "" || description == "" || startDate.None? || endDate.None?
       || !TiersValid(tiers) || cat.None?
    then None
    else Some(Event(id, Text.Trim(title), description, cat.value, organizer,
                    startDate.value, endDate.value, Some(isOnline.GetOr(false)), location,
                    onlineLink.GetOr(""), bannerImage, CastTiers(tiers, id + 1),
                    EventStatus.Pending, false, false, now))
  }
}
