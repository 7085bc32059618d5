/** `get_and_display_rooms`: list the floors of a building, fetch each floor's rooms and beds
    from the same endpoint, concatenate them in listing order, and give up unless some bed is
    free. Each POST is a call of `fetch` on the request URL. */
module Aggregator {
  import opened Wrappers
  import opened Replies
  import opened Housing
  import opened Seqs

  const BaseUrl := "https://client.vpn.nuist.edu.cn/http/webvpnf798bff316e8cb600a95f8a16f827ac1"
  const FloorShowApi := BaseUrl + "/chosen/api/v2/chosen/student/floorShow"
  /** The always-empty filter parameters that end every floor-listing URL. */
  const FilterTail := "&fjcx=&price=&bedsType=&air=&habitStr=&enlink-vpn"
  const UnknownFloor := "未知楼层"
  const UnknownRoom := "未知房间"

  /** An entry of `data.floorSelect`; its number `no` is only announced on the console. */
  datatype FloorRef = FloorRef(floorId: Option<string>, no: JsonText)

  /** A decoded floor-listing response; a missing `data`, `floorSelect` or `floor` reads as []. */
  datatype Envelope = Envelope(status: Option<string>, message: JsonText, floorSelect: seq<FloorRef>, floor: seq<Floor>)

  datatype Error = TransportFailed | BadJson | Refused(message: string) | NoFloors | NoRooms | FullyBooked

  /** The floor-listing endpoint with building, sub-process and floor bound. */
  function FloorShowUrl(buildingId: string, subId: string, floorId: string): string {
    FloorShowApi + "?buildingId=" + buildingId + "&subId=" + subId + "&floorId=" + floorId + FilterTail
  }

  /** The first request: the floor parameter is left empty. */
  function ListingUrl(buildingId: string, subId: string): string {
    FloorShowApi + "?buildingId=" + buildingId + "&subId=" + subId + "&floorId=" + FilterTail
  }

  /** An f-string renders a missing `floorId` as `None`. */
  function FloorIdText(floorId: Option<string>): string {
    match floorId
    case Some(id) => id
    case None => "None"
  }

  function FloorUrl(buildingId: string, subId: string, ref: FloorRef): string {
    FloorShowUrl(buildingId, subId, FloorIdText(ref.floorId))
  }

  /** With building and sub-process fixed, different floors are different requests. */
  lemma FloorShowUrlInjective(buildingId: string, subId: string, f1: string, f2: string)
    requires FloorShowUrl(buildingId, subId, f1) == FloorShowUrl(buildingId, subId, f2)
    ensures f1 == f2
  {
    var head := FloorShowApi + "?buildingId=" + buildingId + "&subId=" + subId + "&floorId=";
    var u := FloorShowUrl(buildingId, subId, f1);
    assert u == head + f1 + FilterTail;
    assert u == head + f2 + FilterTail;
    assert |f1| == |f2|;
    assert f1 == u[|head|..|head| + |f1|];
    assert f2 == u[|head|..|head| + |f2|];
  }

  /** The listing request is the floor request with an empty floor, and so differs from the
      request of every floor whose id renders non-empty. */
  lemma ListingIsNoFloorRequest(buildingId: string, subId: string, ref: FloorRef)
    ensures ListingUrl(buildingId, subId) == FloorShowUrl(buildingId, subId, "")
    ensures FloorIdText(ref.floorId) != "" ==> ListingUrl(buildingId, subId) != FloorUrl(buildingId, subId, ref)
  {
    var head := FloorShowApi + "?buildingId=" + buildingId + "&subId=" + subId + "&floorId=";
    assert ListingUrl(buildingId, subId) == head + FilterTail;
    assert FloorShowUrl(buildingId, subId, "") == head + "" + FilterTail;
    assert head + "" == head;
    if ListingUrl(buildingId, subId) == FloorUrl(buildingId, subId, ref) {
      FloorShowUrlInjective(buildingId, subId, "", FloorIdText(ref.floorId));
    }
  }

  /** The `floor` list of one per-floor response (no status check is made on it). */
  function PageFloors(reply: Http<Json<Envelope>>): Result<seq<Floor>, Error> {
    match reply
    case TransportError => Failure(TransportFailed)
    case Received(Malformed) => Failure(BadJson)
    case Received(Parsed(env)) => Success(env.floor)
  }

  /** The per-floor fetches of `refs`, in order; the first failing request ends the run. */
  function Gathered(buildingId: string, subId: string, refs: seq<FloorRef>, fetch: string -> Http<Json<Envelope>>): Result<seq<Floor>, Error>
  {
    if refs == [] then Success([])
    else
      match Gathered(buildingId, subId, refs[..|refs| - 1], fetch)
      case Failure(e) => Failure(e)
      case Success(acc) =>
        match PageFloors(fetch(FloorUrl(buildingId, subId, refs[|refs| - 1])))
        case Failure(e) => Failure(e)
        case Success(floors) => Success(acc + floors)
  }

  /** The floor list a page contributes to the concatenation: nothing when its request failed. */
  function PageContent(buildingId: string, subId: string, fetch: string -> Http<Json<Envelope>>): FloorRef -> seq<Floor> {
    (ref: FloorRef) =>
      var page := PageFloors(fetch(FloorUrl(buildingId, subId, ref)));
      if page.Success? then page.value else []
  }

  /** The pages' floor lists concatenated in listing order. */
  function Joined(buildingId: string, subId: string, refs: seq<FloorRef>, fetch: string -> Http<Json<Envelope>>): seq<Floor> {
    ConcatMap(PageContent(buildingId, subId, fetch), refs)
  }

  predicate PageOk(buildingId: string, subId: string, ref: FloorRef, fetch: string -> Http<Json<Envelope>>) {
    PageFloors(fetch(FloorUrl(buildingId, subId, ref))).Success?
  }

  /** Gathering succeeds exactly when every per-floor request does; then it is the in-order
      concatenation of the pages' floor lists; otherwise it fails as the first failing page does. */
  lemma {:induction false} GatheredCharacterized(buildingId: string, subId: string, refs: seq<FloorRef>, fetch: string -> Http<Json<Envelope>>)
    ensures Gathered(buildingId, subId, refs, fetch).Success?
        <==> forall k :: 0 <= k < |refs| ==> PageOk(buildingId, subId, refs[k], fetch)
    ensures Gathered(buildingId, subId, refs, fetch).Success?
        ==> Gathered(buildingId, subId, refs, fetch).value == Joined(buildingId, subId, refs, fetch)
    ensures Gathered(buildingId, subId, refs, fetch).Failure? ==>
      exists k :: 0 <= k < |refs| && (forall j :: 0 <= j < k ==> PageOk(buildingId, subId, refs[j], fetch))
        && PageFloors(fetch(FloorUrl(buildingId, subId, refs[k]))) == Failure(Gathered(buildingId, subId, refs, fetch).error)
    decreases |refs|
  {
    if refs != [] {
      var init := refs[..|refs| - 1];
      GatheredCharacterized(buildingId, subId, init, fetch);
      ConcatMapSnoc(PageContent(buildingId, subId, fetch), refs, |refs| - 1);
      assert refs[..|refs|] == refs;
      assert forall k :: 0 <= k < |init| ==> init[k] == refs[k];
      var g := Gathered(buildingId, subId, refs, fetch);
      if g.Failure? && Gathered(buildingId, subId, init, fetch).Success? {
        assert forall j :: 0 <= j < |refs| - 1 ==> PageOk(buildingId, subId, refs[j], fetch) by {
          forall j | 0 <= j < |refs| - 1 ensures PageOk(buildingId, subId, refs[j], fetch) {
            assert PageOk(buildingId, subId, init[j], fetch);
          }
        }
      }
    }
  }

  /** Once a prefix of the floors has failed, the whole run fails the same way. */
  lemma {:induction false} GatheredFailureSticks(buildingId: string, subId: string, refs: seq<FloorRef>, n: nat, fetch: string -> Http<Json<Envelope>>)
    requires n <= |refs| && Gathered(buildingId, subId, refs[..n], fetch).Failure?
    ensures Gathered(buildingId, subId, refs, fetch) == Gathered(buildingId, subId, refs[..n], fetch)
    decreases |refs| - n
  {
    if n < |refs| {
      assert refs[..n + 1][..n] == refs[..n];
      GatheredFailureSticks(buildingId, subId, refs, n + 1, fetch);
    } else {
      assert refs[..n] == refs;
    }
  }

  /** One line of the displayed listing: a room with at least one free bed. */
  datatype RoomOffer = RoomOffer(floor: string, room: string, beds: seq<Bed>)

  /** The line a room adds to the listing: its free beds, when it has any. */
  function RoomLine(floorLabel: string, room: Room): seq<RoomOffer> {
    var free := FreeBeds(room.beds);
    if free != [] then [RoomOffer(floorLabel, room.name.Shown(UnknownRoom), free)] else []
  }

  function RoomLines(floorLabel: string): Room -> seq<RoomOffer> {
    (room: Room) => RoomLine(floorLabel, room)
  }

  /** The lines of one floor, in room order. */
  function RoomOffers(floorLabel: string, rooms: seq<Room>): seq<RoomOffer> {
    ConcatMap(RoomLines(floorLabel), rooms)
  }

  function FloorLines(): Floor -> seq<RoomOffer> {
    (floor: Floor) => RoomOffers(floor.no.Shown(UnknownFloor), floor.rooms)
  }

  /** What the operator is shown: per floor and room, the free beds; rooms with none are omitted. */
  function Offers(floors: seq<Floor>): seq<RoomOffer> {
    ConcatMap(FloorLines(), floors)
  }

  /** Something is shown exactly when some bed anywhere is free. */
  lemma OffersNonEmpty(floors: seq<Floor>)
    ensures Offers(floors) != [] <==> AnyFree(floors)
  {
    ConcatMapEmpty(FloorLines(), floors);
    forall i | 0 <= i < |floors|
      ensures RoomOffers(floors[i].no.Shown(UnknownFloor), floors[i].rooms) == [] <==> !FloorHasFree(floors[i])
    {
      var floorLabel := floors[i].no.Shown(UnknownFloor);
      ConcatMapEmpty(RoomLines(floorLabel), floors[i].rooms);
      forall j | 0 <= j < |floors[i].rooms| ensures RoomLine(floorLabel, floors[i].rooms[j]) == [] <==> !RoomHasFree(floors[i].rooms[j]) {
        FreeBedsNonEmpty(floors[i].rooms[j]);
      }
    }
  }

  /** Every line shown is a room of the catalog, labelled with its floor's number, listing that
      room's free beds in order, and at least one of them. */
  lemma OfferOrigin(floors: seq<Floor>, offer: RoomOffer)
    requires offer in Offers(floors)
    ensures offer.beds != [] && forall m :: 0 <= m < |offer.beds| ==> IsFree(offer.beds[m])
    ensures exists i, j ::
      && 0 <= i < |floors| && 0 <= j < |floors[i].rooms|
      && offer == RoomOffer(floors[i].no.Shown(UnknownFloor), floors[i].rooms[j].name.Shown(UnknownRoom), FreeBeds(floors[i].rooms[j].beds))
  {
    ConcatMapMembers(FloorLines(), floors, offer);
    var i :| 0 <= i < |floors| && offer in RoomOffers(floors[i].no.Shown(UnknownFloor), floors[i].rooms);
    var floorLabel := floors[i].no.Shown(UnknownFloor);
    ConcatMapMembers(RoomLines(floorLabel), floors[i].rooms, offer);
    var j :| 0 <= j < |floors[i].rooms| && offer in RoomLine(floorLabel, floors[i].rooms[j]);
  }

  /** The availability scan: per room, the beds whose marker is exactly `notCho`, and whether
      any room had one. */
  method ListAvailable(floors: seq<Floor>) returns (offers: seq<RoomOffer>, found: bool)
    ensures offers == Offers(floors)
    ensures found <==> AnyFree(floors)
  {
    offers, found := [], false;
    var i := 0;
    while i < |floors|
      invariant 0 <= i <= |floors|
      invariant offers == Offers(floors[..i])
      invariant found <==> offers != []
    {
      var floor := floors[i];
      var floorName := floor.no.Shown(UnknownFloor);
      var j := 0;
      ghost var before := offers;
      assert before + RoomOffers(floorName, floor.rooms[..0]) == before;
      while j < |floor.rooms|
        invariant 0 <= j <= |floor.rooms|
        invariant offers == before + RoomOffers(floorName, floor.rooms[..j])
        invariant found <==> offers != []
      {
        var room := floor.rooms[j];
        var free := FreeBedsOf(room);
        ConcatMapSnoc(RoomLines(floorName), floor.rooms, j);
        if free != [] {
          found := true;
          offers := offers + [RoomOffer(floorName, room.name.Shown(UnknownRoom), free)];
        }
        Regroup(before, RoomOffers(floorName, floor.rooms[..j]), RoomLine(floorName, room));
        j := j + 1;
      }
      assert floor.rooms[..j] == floor.rooms;
      ConcatMapSnoc(FloorLines(), floors, i);
      i := i + 1;
    }
    assert floors[..i] == floors;
    OffersNonEmpty(floors);
  }

  /** The innermost loop: collect the free beds of one room. */
  method FreeBedsOf(room: Room) returns (free: seq<Bed>)
    ensures free == FreeBeds(room.beds)
  {
    free := [];
    var k := 0;
    while k < |room.beds|
      invariant 0 <= k <= |room.beds|
      invariant free == FreeBeds(room.beds[..k])
    {
      var bed := room.beds[k];
      if IsFree(bed) {
        free := free + [bed];
      }
      assert room.beds[..k + 1][..k] == room.beds[..k];
      k := k + 1;
    }
    assert room.beds[..k] == room.beds;
  }

  /** The whole step: listing request, per-floor requests, and the two emptiness checks. */
  function AggregateSpec(buildingId: string, subId: string, fetch: string -> Http<Json<Envelope>>): Result<seq<Floor>, Error> {
    match fetch(ListingUrl(buildingId, subId))
    case TransportError => Failure(TransportFailed)
    case Received(Malformed) => Failure(BadJson)
    case Received(Parsed(env)) =>
      if env.status != Some(SuccessStatus) then Failure(Refused(env.message.Shown(UnknownError)))
      else if env.floorSelect == [] then Failure(NoFloors)
      else
        match Gathered(buildingId, subId, env.floorSelect, fetch)
        case Failure(e) => Failure(e)
        case Success(all) =>
          if all == [] then Failure(NoRooms)
          else if !AnyFree(all) then Failure(FullyBooked)
          else Success(all)
  }

  /** A successful aggregation returns the concatenated floors unchanged, occupied beds
      included; it succeeds exactly when the listing says `success`, names some floor, every
      per-floor request succeeds, the concatenation is not empty and some bed in it is free. */
  lemma AggregateSucceeds(buildingId: string, subId: string, fetch: string -> Http<Json<Envelope>>)
    ensures AggregateSpec(buildingId, subId, fetch).Success? <==>
      var listing := fetch(ListingUrl(buildingId, subId));
      && listing.Received? && listing.body.Parsed?
      && listing.body.value.status == Some(SuccessStatus)
      && listing.body.value.floorSelect != []
      && (forall k :: 0 <= k < |listing.body.value.floorSelect| ==> PageOk(buildingId, subId, listing.body.value.floorSelect[k], fetch))
      && Joined(buildingId, subId, listing.body.value.floorSelect, fetch) != []
      && AnyFree(Joined(buildingId, subId, listing.body.value.floorSelect, fetch))
    ensures AggregateSpec(buildingId, subId, fetch).Success? ==>
      AggregateSpec(buildingId, subId, fetch).value
        == Joined(buildingId, subId, fetch(ListingUrl(buildingId, subId)).body.value.floorSelect, fetch)
  {
    var listing := fetch(ListingUrl(buildingId, subId));
    if listing.Received? && listing.body.Parsed? {
      GatheredCharacterized(buildingId, subId, listing.body.value.floorSelect, fetch);
    }
  }

  method Aggregate(buildingId: string, subId: string, fetch: string -> Http<Json<Envelope>>) returns (r: Result<seq<Floor>, Error>)
    ensures r == AggregateSpec(buildingId, subId, fetch)
  {
    var listing := fetch(ListingUrl(buildingId, subId));
    if listing.TransportError? {
      return Failure(TransportFailed);
    }
    if listing.body.Malformed? {
      return Failure(BadJson);
    }
    var env := listing.body.value;
    if env.status != Some(SuccessStatus) {
      return Failure(Refused(env.message.Shown(UnknownError)));
    }
    var refs := env.floorSelect;
    if refs == [] {
      return Failure(NoFloors);
    }
    var all: seq<Floor> := [];
    var i := 0;
    while i < |refs|
      invariant 0 <= i <= |refs|
      invariant Gathered(buildingId, subId, refs[..i], fetch) == Success(all)
    {
      assert refs[..i + 1][..i] == refs[..i];
      var page := fetch(FloorUrl(buildingId, subId, refs[i]));
      if page.TransportError? {
        GatheredFailureSticks(buildingId, subId, refs, i + 1, fetch);
        return Failure(TransportFailed);
      }
      if page.body.Malformed? {
        GatheredFailureSticks(buildingId, subId, refs, i + 1, fetch);
        return Failure(BadJson);
      }
      var floors := page.body.value.floor;
      assert Gathered(buildingId, subId, refs[..i + 1], fetch) == Success(all + floors);
      if floors != [] {
        all := all + floors;
      } else {
        assert all + floors == all;
      }
      i := i + 1;
    }
    assert refs[..i] == refs;
    if all == [] {
      return Failure(NoRooms);
    }
    var offers, found := ListAvailable(all);
    if !found {
      return Failure(FullyBooked);
    }
    return Success(all);
  }
}
