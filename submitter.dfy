/** `select_bed`: resolve the operator's room and bed names against the catalog, build the
    reservation form, ask for confirmation and read the server's answer. */
module Submitter {
  import opened Wrappers
  import opened Replies
  import opened Text
  import opened Housing
  import opened Seqs

  /** The three ids the lookup records: `target_room_id`, `target_bed_id`, `target_floor_id`. */
  datatype Ids = Ids(roomId: Option<string>, bedId: Option<string>, floorId: Option<string>)

  const NoIds := Ids(None, None, None)

  /** A bed the lookup accepts: the requested name, exactly, and the `notCho` marker. */
  predicate BedMatches(bed: Bed, bedName: string) {
    bed.name == Some(bedName) && IsFree(bed)
  }

  /** The index of the first accepted bed at or after `from`. */
  function FirstMatchFrom(beds: seq<Bed>, bedName: string, from: nat): (r: Option<nat>)
    requires from <= |beds|
    ensures r.Some? ==> from <= r.value < |beds| && BedMatches(beds[r.value], bedName)
    ensures r.Some? ==> forall m :: from <= m < r.value ==> !BedMatches(beds[m], bedName)
    ensures r.None? ==> forall m :: from <= m < |beds| ==> !BedMatches(beds[m], bedName)
    decreases |beds| - from
  {
    if from == |beds| then None
    else if BedMatches(beds[from], bedName) then Some(from)
    else FirstMatchFrom(beds, bedName, from + 1)
  }

  /** What one room contributes to the lookup: the ids of its first accepted bed, when the room
      has the requested name; nothing otherwise, whether the name differs or no bed is accepted. */
  function Candidate(room: Room, roomName: string, bedName: string): Option<Ids> {
    if room.name != Str(roomName) then None
    else
      match FirstMatchFrom(room.beds, bedName, 0)
      case None => None
      case Some(k) => Some(Ids(room.id, room.beds[k].id, room.floorId))
  }

  /** A room contributes exactly when it has the requested name and an accepted bed, and then it
      contributes the ids of its first accepted bed, where the bed loop breaks, whatever that
      bed's id is. */
  lemma CandidateCharacterized(room: Room, roomName: string, bedName: string)
    ensures Candidate(room, roomName, bedName).Some? <==>
      room.name == Str(roomName) && exists k :: 0 <= k < |room.beds| && BedMatches(room.beds[k], bedName)
    ensures Candidate(room, roomName, bedName).Some? ==>
      exists k :: 0 <= k < |room.beds| && BedMatches(room.beds[k], bedName)
        && (forall m :: 0 <= m < k ==> !BedMatches(room.beds[m], bedName))
        && Candidate(room, roomName, bedName).value == Ids(room.id, room.beds[k].id, room.floorId)
  {
  }

  /** What one room adds to the sequence of contributions. */
  function Contribution(room: Room, roomName: string, bedName: string): seq<Ids> {
    match Candidate(room, roomName, bedName)
    case None => []
    case Some(c) => [c]
  }

  function RoomContribution(roomName: string, bedName: string): Room -> seq<Ids> {
    (room: Room) => Contribution(room, roomName, bedName)
  }

  /** The contributions of the rooms of one floor, in room order. */
  function RoomCandidates(rooms: seq<Room>, roomName: string, bedName: string): seq<Ids> {
    ConcatMap(RoomContribution(roomName, bedName), rooms)
  }

  function FloorContribution(roomName: string, bedName: string): Floor -> seq<Ids> {
    (floor: Floor) => RoomCandidates(floor.rooms, roomName, bedName)
  }

  /** The contributions of all rooms, in floor-then-room order. */
  function Candidates(floors: seq<Floor>, roomName: string, bedName: string): seq<Ids> {
    ConcatMap(FloorContribution(roomName, bedName), floors)
  }

  /** One contribution seen by the scan: it overwrites the recorded ids unless those already
      hold a truthy bed id, in which case the scan has stopped. */
  function Step(st: Ids, c: Ids): Ids {
    if Truthy(st.bedId) then st else c
  }

  /** The recorded ids after the scan has seen the contributions `cs`. */
  function Settle(st: Ids, cs: seq<Ids>): Ids {
    if cs == [] then st else Step(Settle(st, cs[..|cs| - 1]), cs[|cs| - 1])
  }

  /** The ids `select_bed` ends up with. */
  function LookupSpec(floors: seq<Floor>, roomName: string, bedName: string): Ids {
    Settle(NoIds, Candidates(floors, roomName, bedName))
  }

  lemma {:induction false} SettleStable(st: Ids, cs: seq<Ids>)
    requires Truthy(st.bedId)
    ensures Settle(st, cs) == st
  {
    if cs != [] { SettleStable(st, cs[..|cs| - 1]); }
  }

  lemma {:induction false} SettleAppend(st: Ids, a: seq<Ids>, b: seq<Ids>)
    ensures Settle(st, a + b) == Settle(Settle(st, a), b)
    decreases |b|
  {
    if b == [] {
      assert a + b == a;
    } else {
      assert (a + b)[..|a + b| - 1] == a + b[..|b| - 1];
      SettleAppend(st, a, b[..|b| - 1]);
    }
  }

  lemma SettleSnoc(st: Ids, cs: seq<Ids>, c: Ids)
    ensures Settle(st, cs + [c]) == Step(Settle(st, cs), c)
  {
    assert (cs + [c])[..|cs|] == cs;
  }

  /** When no contribution has a truthy bed id, each one overwrote the previous one and the
      last one stands. */
  lemma {:induction false} SettleNoTruthy(st: Ids, cs: seq<Ids>)
    requires !Truthy(st.bedId)
    requires forall k :: 0 <= k < |cs| ==> !Truthy(cs[k].bedId)
    ensures Settle(st, cs) == if cs == [] then st else cs[|cs| - 1]
  {
    if cs != [] {
      var init := cs[..|cs| - 1];
      assert forall k :: 0 <= k < |init| ==> init[k] == cs[k];
      SettleNoTruthy(st, init);
      if init != [] { assert init[|init| - 1] == cs[|cs| - 2]; }
    }
  }

  /** The scan keeps the first contribution with a truthy bed id. */
  lemma {:induction false} SettleFirstTruthy(st: Ids, cs: seq<Ids>, k: nat)
    requires !Truthy(st.bedId)
    requires k < |cs| && Truthy(cs[k].bedId)
    requires forall m :: 0 <= m < k ==> !Truthy(cs[m].bedId)
    ensures Settle(st, cs) == cs[k]
  {
    var init := cs[..|cs| - 1];
    if k < |init| {
      assert forall m :: 0 <= m <= k ==> init[m] == cs[m];
      SettleFirstTruthy(st, init, k);
    } else {
      assert forall m :: 0 <= m < |init| ==> init[m] == cs[m];
      SettleNoTruthy(st, init);
      if init != [] { assert !Truthy(cs[|init| - 1].bedId); }
    }
  }

  /** What the scan ends with is the starting value or one of the contributions. */
  lemma {:induction false} SettleIsSomeCandidate(st: Ids, cs: seq<Ids>)
    ensures Settle(st, cs) == st || Settle(st, cs) in cs
  {
    if cs != [] {
      SettleIsSomeCandidate(st, cs[..|cs| - 1]);
    }
  }

  lemma RoomCandidatesMembers(rooms: seq<Room>, roomName: string, bedName: string, c: Ids)
    ensures c in RoomCandidates(rooms, roomName, bedName) <==>
      exists j :: 0 <= j < |rooms| && Candidate(rooms[j], roomName, bedName) == Some(c)
  {
    ConcatMapMembers(RoomContribution(roomName, bedName), rooms, c);
  }

  /** The contributions are exactly the candidates of the catalog's rooms. */
  lemma CandidatesMembers(floors: seq<Floor>, roomName: string, bedName: string, c: Ids)
    ensures c in Candidates(floors, roomName, bedName) <==>
      exists i, j :: 0 <= i < |floors| && 0 <= j < |floors[i].rooms| && Candidate(floors[i].rooms[j], roomName, bedName) == Some(c)
  {
    ConcatMapMembers(FloorContribution(roomName, bedName), floors, c);
    forall i | 0 <= i < |floors|
      ensures c in RoomCandidates(floors[i].rooms, roomName, bedName) <==>
        exists j :: 0 <= j < |floors[i].rooms| && Candidate(floors[i].rooms[j], roomName, bedName) == Some(c)
    {
      RoomCandidatesMembers(floors[i].rooms, roomName, bedName, c);
    }
  }

  /** The contributions of a catalog cut just after room `j` of floor `i`. */
  lemma CandidatesCut(floors: seq<Floor>, roomName: string, bedName: string, i: nat, j: nat)
    requires i < |floors| && j <= |floors[i].rooms|
    ensures Candidates(floors, roomName, bedName)
      == (Candidates(floors[..i], roomName, bedName) + RoomCandidates(floors[i].rooms[..j], roomName, bedName))
       + (RoomCandidates(floors[i].rooms[j..], roomName, bedName) + Candidates(floors[i + 1..], roomName, bedName))
  {
    var rooms := floors[i].rooms;
    var fc := FloorContribution(roomName, bedName);
    ConcatMapSplit(fc, floors, i);
    assert fc(floors[i]) == RoomCandidates(rooms, roomName, bedName);
    ConcatMapCut(RoomContribution(roomName, bedName), rooms, j);
    Regroup4(Candidates(floors[..i], roomName, bedName), RoomCandidates(rooms[..j], roomName, bedName),
      RoomCandidates(rooms[j..], roomName, bedName), Candidates(floors[i + 1..], roomName, bedName));
  }

  lemma RoomCandidatesHead(rooms: seq<Room>, roomName: string, bedName: string)
    requires rooms != []
    ensures RoomCandidates(rooms, roomName, bedName) == Contribution(rooms[0], roomName, bedName) + RoomCandidates(rooms[1..], roomName, bedName)
  {
    var rc := RoomContribution(roomName, bedName);
    ConcatMapSplit(rc, rooms, 0);
    assert rooms[..0] == [];
  }

  /** A room before which no room contributes is where the scan stops, provided the bed it
      finds has a truthy id: the lookup returns the first room, in floor-then-room order, that
      has the requested name and an accepted bed. */
  lemma LookupFirstRoom(floors: seq<Floor>, roomName: string, bedName: string, i: nat, j: nat)
    requires i < |floors| && j < |floors[i].rooms|
    requires Candidate(floors[i].rooms[j], roomName, bedName).Some?
    requires Truthy(Candidate(floors[i].rooms[j], roomName, bedName).value.bedId)
    requires forall i', j' :: 0 <= i' < i && 0 <= j' < |floors[i'].rooms| ==> Candidate(floors[i'].rooms[j'], roomName, bedName).None?
    requires forall j' :: 0 <= j' < j ==> Candidate(floors[i].rooms[j'], roomName, bedName).None?
    ensures LookupSpec(floors, roomName, bedName) == Candidate(floors[i].rooms[j], roomName, bedName).value
  {
    var c := Candidate(floors[i].rooms[j], roomName, bedName).value;
    var rooms := floors[i].rooms;
    var before := Candidates(floors[..i], roomName, bedName);
    var roomsBefore := RoomCandidates(rooms[..j], roomName, bedName);
    if before != [] {
      CandidatesMembers(floors[..i], roomName, bedName, before[0]);
      assert false;
    }
    if roomsBefore != [] {
      RoomCandidatesMembers(rooms[..j], roomName, bedName, roomsBefore[0]);
      assert false;
    }
    CandidatesCut(floors, roomName, bedName, i, j);
    RoomCandidatesHead(rooms[j..], roomName, bedName);
    var rest := RoomCandidates(rooms[j..][1..], roomName, bedName) + Candidates(floors[i + 1..], roomName, bedName);
    assert Candidates(floors, roomName, bedName) == [c] + rest;
    SettleAppend(NoIds, [c], rest);
    SettleSnoc(NoIds, [], c);
    SettleStable(c, rest);
  }

  /** When no room of the requested name has an accepted bed of the requested name, the lookup
      records nothing and fails. */
  lemma LookupNone(floors: seq<Floor>, roomName: string, bedName: string)
    requires forall i, j, k ::
      0 <= i < |floors| && 0 <= j < |floors[i].rooms| && 0 <= k < |floors[i].rooms[j].beds| && floors[i].rooms[j].name == Str(roomName)
      ==> !BedMatches(floors[i].rooms[j].beds[k], bedName)
    ensures LookupSpec(floors, roomName, bedName) == NoIds && !Resolved(LookupSpec(floors, roomName, bedName))
  {
    var cs := Candidates(floors, roomName, bedName);
    if cs != [] {
      CandidatesMembers(floors, roomName, bedName, cs[0]);
      var i, j :| 0 <= i < |floors| && 0 <= j < |floors[i].rooms| && Candidate(floors[i].rooms[j], roomName, bedName) == Some(cs[0]);
      CandidateCharacterized(floors[i].rooms[j], roomName, bedName);
      assert false;
    }
  }

  /** The scan stops at `floors[i].rooms[j]`: the contributions up to and including it already
      hold a truthy bed id, so the rest cannot change the result. */
  lemma StopsEarly(floors: seq<Floor>, roomName: string, bedName: string, i: nat, j: nat, head: seq<Ids>)
    requires i < |floors| && j < |floors[i].rooms|
    requires head == Candidates(floors[..i], roomName, bedName) + RoomCandidates(floors[i].rooms[..j + 1], roomName, bedName)
    requires Truthy(Settle(NoIds, head).bedId)
    ensures LookupSpec(floors, roomName, bedName) == Settle(NoIds, head)
  {
    CandidatesCut(floors, roomName, bedName, i, j + 1);
    var rest := RoomCandidates(floors[i].rooms[j + 1..], roomName, bedName) + Candidates(floors[i + 1..], roomName, bedName);
    SettleAppend(NoIds, head, rest);
    SettleStable(Settle(NoIds, head), rest);
  }

  /** One room seen by the scan, while no truthy bed id is recorded: the contribution it adds
      is what the recorded ids become. */
  lemma RoomStep(done: seq<Ids>, rooms: seq<Room>, j: nat, roomName: string, bedName: string, prev: Ids, ids: Ids)
    requires j < |rooms|
    requires Settle(NoIds, done + RoomCandidates(rooms[..j], roomName, bedName)) == prev && !Truthy(prev.bedId)
    requires Candidate(rooms[j], roomName, bedName) == (if ids == prev then None else Some(ids))
      || Candidate(rooms[j], roomName, bedName) == Some(ids)
    ensures Settle(NoIds, done + RoomCandidates(rooms[..j + 1], roomName, bedName)) == ids
  {
    var seen := done + RoomCandidates(rooms[..j], roomName, bedName);
    ConcatMapSnoc(RoomContribution(roomName, bedName), rooms, j);
    assert done + RoomCandidates(rooms[..j + 1], roomName, bedName) == seen + Contribution(rooms[j], roomName, bedName);
    match Candidate(rooms[j], roomName, bedName)
    case None =>
      assert seen + [] == seen;
    case Some(c) =>
      SettleSnoc(NoIds, seen, c);
  }

  /** The lookup needs all three ids truthy (`all([...])`). */
  predicate Resolved(ids: Ids) {
    Truthy(ids.roomId) && Truthy(ids.bedId) && Truthy(ids.floorId)
  }

  /** The triple loop of `select_bed` with its `break`s: the bed loop stops at the first accepted
      bed; the room and floor loops stop only once the recorded bed id is truthy. */
  method Lookup(floors: seq<Floor>, roomName: string, bedName: string) returns (ids: Ids)
    ensures ids == LookupSpec(floors, roomName, bedName)
  {
    ids := NoIds;
    var i := 0;
    while i < |floors|
      invariant 0 <= i <= |floors|
      invariant ids == Settle(NoIds, Candidates(floors[..i], roomName, bedName))
      invariant !Truthy(ids.bedId)
    {
      var rooms := floors[i].rooms;
      ghost var done := Candidates(floors[..i], roomName, bedName);
      assert done + RoomCandidates(rooms[..0], roomName, bedName) == done;
      var j := 0;
      while j < |rooms|
        invariant 0 <= j <= |rooms|
        invariant ids == Settle(NoIds, done + RoomCandidates(rooms[..j], roomName, bedName))
        invariant !Truthy(ids.bedId)
      {
        var room := rooms[j];
        ghost var prev := ids;
        if room.name == Str(roomName) {
          var k := 0;
          while k < |room.beds|
            invariant 0 <= k <= |room.beds|
            invariant ids == prev
            invariant forall m :: 0 <= m < k ==> !BedMatches(room.beds[m], bedName)
          {
            var bed := room.beds[k];
            if bed.name == Some(bedName) && bed.choose == Some(NotChosen) {
              ids := Ids(room.id, bed.id, room.floorId);
              assert FirstMatchFrom(room.beds, bedName, 0) == Some(k);
              break;
            }
            k := k + 1;
          }
          RoomStep(done, rooms, j, roomName, bedName, prev, ids);
          if Truthy(ids.bedId) {
            StopsEarly(floors, roomName, bedName, i, j, done + RoomCandidates(rooms[..j + 1], roomName, bedName));
            break;
          }
        } else {
          RoomStep(done, rooms, j, roomName, bedName, prev, ids);
        }
        j := j + 1;
      }
      if Truthy(ids.bedId) {
        break;
      }
      assert rooms[..j] == rooms;
      ConcatMapSnoc(FloorContribution(roomName, bedName), floors, i);
      i := i + 1;
    }
    if i == |floors| {
      assert floors[..i] == floors;
    }
  }

  /** The parameters `main` hands to `select_bed`: the selection token and routing ids, the
      student's name, and the college under the key `deptName`. */
  datatype Params = Params(token: string, buildingId: string, studentName: string, subId: string, deptName: string)

  /** `post_data`, the reservation form. */
  datatype Payload = Payload(
    roomId: string, bedId: string, floorId: string, token: string,
    buildingId: string, studentName: string, deptName: string, subId: string)

  const FormKeys := ["roomId", "bedId", "floorId", "token", "buildingId", "studentName", "deptName", "subId"]

  function BuildPayload(ids: Ids, params: Params): Payload
    requires Resolved(ids)
  {
    Payload(ids.roomId.value, ids.bedId.value, ids.floorId.value, params.token,
      params.buildingId, params.studentName, params.deptName, params.subId)
  }

  /** The form as sent, a key/value list in the order `post_data` is written. */
  function FormFields(p: Payload): (r: seq<(string, string)>)
    ensures |r| == |FormKeys| && forall k :: 0 <= k < |r| ==> r[k].0 == FormKeys[k]
  {
    [("roomId", p.roomId), ("bedId", p.bedId), ("floorId", p.floorId), ("token", p.token),
     ("buildingId", p.buildingId), ("studentName", p.studentName), ("deptName", p.deptName), ("subId", p.subId)]
  }

  /** The value of the first field named `key`. */
  function Field(fields: seq<(string, string)>, key: string): Option<string> {
    if fields == [] then None
    else if fields[0].0 == key then Some(fields[0].1)
    else Field(fields[1..], key)
  }

  /** How the server reads the form back: the first value given for each key. */
  function FromForm(fields: seq<(string, string)>): Option<Payload> {
    var roomId, bedId, floorId, token := Field(fields, "roomId"), Field(fields, "bedId"), Field(fields, "floorId"), Field(fields, "token");
    var buildingId, studentName, deptName, subId := Field(fields, "buildingId"), Field(fields, "studentName"), Field(fields, "deptName"), Field(fields, "subId");
    if roomId.Some? && bedId.Some? && floorId.Some? && token.Some? && buildingId.Some? && studentName.Some? && deptName.Some? && subId.Some?
    then Some(Payload(roomId.value, bedId.value, floorId.value, token.value, buildingId.value, studentName.value, deptName.value, subId.value))
    else None
  }

  /** Every field of the payload reaches the server under its own key: the form names each of
      the eight keys once, so reading it back gives the payload. */
  lemma FormRoundTrip(p: Payload)
    ensures FromForm(FormFields(p)) == Some(p)
  {
    var f := FormFields(p);
    FieldAt(f, 0, "roomId");
    FieldAt(f, 1, "bedId");
    FieldAt(f, 2, "floorId");
    FieldAt(f, 3, "token");
    FieldAt(f, 4, "buildingId");
    FieldAt(f, 5, "studentName");
    FieldAt(f, 6, "deptName");
    FieldAt(f, 7, "subId");
  }

  /** The value read for a key is that of the first field carrying it. */
  lemma FieldAt(fields: seq<(string, string)>, k: nat, key: string)
    requires k < |fields| && fields[k].0 == key
    requires forall m :: 0 <= m < k ==> fields[m].0 != key
    ensures Field(fields, key) == Some(fields[k].1)
  {
    FieldSkips(fields, 0, k, key);
    assert fields[k..][0] == fields[k];
  }

  /** Fields with other keys are skipped. */
  lemma {:induction false} FieldSkips(fields: seq<(string, string)>, from: nat, upto: nat, key: string)
    requires from <= upto <= |fields|
    requires forall k :: from <= k < upto ==> fields[k].0 != key
    ensures Field(fields[from..], key) == Field(fields[upto..], key)
    decreases upto - from
  {
    if from < upto {
      assert fields[from..][1..] == fields[from + 1..];
      FieldSkips(fields, from + 1, upto, key);
    }
  }

  /** `input(...).strip().lower() == 'y'`. */
  predicate Confirmed(answer: string) {
    Lower(Strip(answer)) == "y"
  }

  /** The operator confirms with a lone `y` or `Y`, white space around it allowed, and with
      nothing else. */
  lemma ConfirmedExactly(answer: string)
    ensures Confirmed(answer) <==> Strip(answer) == "y" || Strip(answer) == "Y"
  {
    LowerIsY(Strip(answer));
  }

  lemma LowerIsY(t: string)
    ensures Lower(t) == "y" <==> t == "y" || t == "Y"
  {
    if Lower(t) == "y" {
      assert LowerChar(t[0]) == 'y';
      assert t == [t[0]];
    }
    if t == "Y" || t == "y" { assert Lower(t)[0] == 'y'; }
  }

  /** The JSON envelope of the reservation reply. */
  datatype SaveEnvelope = SaveEnvelope(status: Option<string>, data: Option<string>, message: JsonText)

  /** What the server said: a reservation with its `data`, or a refusal with its message. */
  datatype Verdict = Reserved(detail: Option<string>) | Rejected(message: string)

  function Interpret(env: SaveEnvelope): Verdict {
    if env.status == Some(SuccessStatus) then Reserved(env.data)
    else Rejected(env.message.Shown(UnknownError))
  }

  /** How `select_bed` ends. */
  datatype Outcome = NotFound | Cancelled | TransportFailed | BadJson | Answered(verdict: Verdict)

  /** What `select_bed` does once the lookup has recorded `ids`. */
  function Decide(ids: Ids, params: Params, confirmed: bool, post: Payload -> Http<Json<SaveEnvelope>>): (Outcome, Option<Payload>) {
    if !Resolved(ids) then (NotFound, None)
    else
      var p := BuildPayload(ids, params);
      if !confirmed then (Cancelled, None)
      else
        match post(p)
        case TransportError => (TransportFailed, Some(p))
        case Received(Malformed) => (BadJson, Some(p))
        case Received(Parsed(env)) => (Answered(Interpret(env)), Some(p))
  }

  /** `select_bed`, with the three console answers and the POST to the save endpoint as
      parameters; the second component is the form posted, if any. */
  function SelectSpec(floors: seq<Floor>, params: Params, roomInput: string, bedInput: string, answer: string,
                      post: Payload -> Http<Json<SaveEnvelope>>): (Outcome, Option<Payload>) {
    Decide(LookupSpec(floors, Strip(roomInput), Strip(bedInput)), params, Confirmed(answer), post)
  }

  /** Nothing is posted unless all three ids are truthy and the operator confirmed; unresolved
      ids end as `NotFound` whatever the answer, an unconfirmed choice as `Cancelled`. A posted
      form carries the ids and the five parameters. */
  lemma DecideCases(ids: Ids, params: Params, confirmed: bool, post: Payload -> Http<Json<SaveEnvelope>>)
    ensures var (outcome, sent) := Decide(ids, params, confirmed, post);
      && (sent.Some? <==> Resolved(ids) && confirmed)
      && (outcome == NotFound <==> !Resolved(ids))
      && (outcome == Cancelled <==> Resolved(ids) && !confirmed)
      && (sent.Some? ==> var p := sent.value;
           && ids == Ids(Some(p.roomId), Some(p.bedId), Some(p.floorId))
           && p.token == params.token && p.buildingId == params.buildingId && p.studentName == params.studentName
           && p.deptName == params.deptName && p.subId == params.subId)
  {
  }

  /** Nothing is posted unless the lookup resolved all three ids and the operator confirmed;
      an unresolved lookup ends as `NotFound` whatever the answer, an unconfirmed one as
      `Cancelled`. */
  lemma PostsOnlyWhenResolvedAndConfirmed(floors: seq<Floor>, params: Params, roomInput: string, bedInput: string,
                                         answer: string, post: Payload -> Http<Json<SaveEnvelope>>)
    ensures var (outcome, sent) := SelectSpec(floors, params, roomInput, bedInput, answer, post);
      var ids := LookupSpec(floors, Strip(roomInput), Strip(bedInput));
      && (sent.Some? <==> Resolved(ids) && Confirmed(answer))
      && (outcome == NotFound <==> !Resolved(ids))
      && (outcome == Cancelled <==> Resolved(ids) && !Confirmed(answer))
  {
    DecideCases(LookupSpec(floors, Strip(roomInput), Strip(bedInput)), params, Confirmed(answer), post);
  }

  /** A posted form carries the ids of a room whose name is the stripped room answer and of a
      free bed of it whose name is the stripped bed answer, and the other five fields verbatim
      from the parameters. */
  lemma PostedFormOrigin(floors: seq<Floor>, params: Params, roomInput: string, bedInput: string,
                         answer: string, post: Payload -> Http<Json<SaveEnvelope>>)
    requires SelectSpec(floors, params, roomInput, bedInput, answer, post).1.Some?
    ensures var p := SelectSpec(floors, params, roomInput, bedInput, answer, post).1.value;
      && p.token == params.token && p.buildingId == params.buildingId && p.studentName == params.studentName
      && p.deptName == params.deptName && p.subId == params.subId
      && exists i, j, k ::
        && 0 <= i < |floors| && 0 <= j < |floors[i].rooms| && 0 <= k < |floors[i].rooms[j].beds|
        && floors[i].rooms[j].name == Str(Strip(roomInput))
        && floors[i].rooms[j].beds[k].name == Some(Strip(bedInput)) && IsFree(floors[i].rooms[j].beds[k])
        && floors[i].rooms[j].id == Some(p.roomId) && floors[i].rooms[j].beds[k].id == Some(p.bedId)
        && floors[i].rooms[j].floorId == Some(p.floorId)
  {
    var rn, bn := Strip(roomInput), Strip(bedInput);
    var ids := LookupSpec(floors, rn, bn);
    DecideCases(ids, params, Confirmed(answer), post);
    SettleIsSomeCandidate(NoIds, Candidates(floors, rn, bn));
    CandidatesMembers(floors, rn, bn, ids);
    var i, j :| 0 <= i < |floors| && 0 <= j < |floors[i].rooms| && Candidate(floors[i].rooms[j], rn, bn) == Some(ids);
    CandidateCharacterized(floors[i].rooms[j], rn, bn);
  }

  /** The reply decides the verdict: a reservation exactly when its `status` is `success`,
      reporting its `data`; otherwise a refusal with the server's message or the stock one. */
  lemma DecideVerdict(ids: Ids, params: Params, confirmed: bool, post: Payload -> Http<Json<SaveEnvelope>>)
    requires Decide(ids, params, confirmed, post).0.Answered?
    ensures var (outcome, sent) := Decide(ids, params, confirmed, post);
      && sent.Some? && post(sent.value).Received? && post(sent.value).body.Parsed?
      && var env := post(sent.value).body.value;
      && (outcome.verdict.Reserved? <==> env.status == Some(SuccessStatus))
      && (outcome.verdict.Reserved? ==> outcome.verdict.detail == env.data)
      && (outcome.verdict.Rejected? ==>
           && (env.message.Missing? ==> outcome.verdict.message == UnknownError)
           && (env.message.Null? ==> outcome.verdict.message == "None")
           && (env.message.Str? ==> outcome.verdict.message == env.message.value))
  {
  }

  /** The same at the level of the whole selection step. */
  lemma VerdictFollowsReply(floors: seq<Floor>, params: Params, roomInput: string, bedInput: string,
                            answer: string, post: Payload -> Http<Json<SaveEnvelope>>)
    requires SelectSpec(floors, params, roomInput, bedInput, answer, post).0.Answered?
    ensures var (outcome, sent) := SelectSpec(floors, params, roomInput, bedInput, answer, post);
      && sent.Some? && post(sent.value).Received? && post(sent.value).body.Parsed?
      && var env := post(sent.value).body.value;
      && (outcome.verdict.Reserved? <==> env.status == Some(SuccessStatus))
      && (outcome.verdict.Reserved? ==> outcome.verdict.detail == env.data)
      && (outcome.verdict.Rejected? ==>
           && (env.message.Missing? ==> outcome.verdict.message == UnknownError)
           && (env.message.Null? ==> outcome.verdict.message == "None")
           && (env.message.Str? ==> outcome.verdict.message == env.message.value))
  {
    DecideVerdict(LookupSpec(floors, Strip(roomInput), Strip(bedInput)), params, Confirmed(answer), post);
  }

  /** The catalog of the scenarios: floor `3F` holding room `Block36-314` (id `R1`, floor id
      `F3`) with one bed `1` (id `B1`) whose marker is `choose`. */
  function ScenarioFloors(choose: string): seq<Floor> {
    [Floor(Str("3F"), [Room(Str("Block36-314"), Some("R1"), Some("F3"), [Bed(Some("1"), Some("B1"), Some(choose), None)])])]
  }

  /** The end-to-end case: one free bed, answers that strip to the room name, the bed name
      and `y` or `Y`, and a `success` reply with `data` `OK` post exactly the resolved ids and
      the parameters, and end as a reservation reporting `OK`. */
  lemma ScenarioReserves(params: Params, post: Payload -> Http<Json<SaveEnvelope>>,
                         roomInput: string, bedInput: string, answer: string)
    requires Strip(roomInput) == "Block36-314" && Strip(bedInput) == "1"
    requires Strip(answer) == "y" || Strip(answer) == "Y"
    requires forall p :: post(p) == Received(Parsed(SaveEnvelope(Some("success"), Some("OK"), Missing)))
    ensures SelectSpec(ScenarioFloors(NotChosen), params, roomInput, bedInput, answer, post)
      == (Answered(Reserved(Some("OK"))),
          Some(Payload("R1", "B1", "F3", params.token, params.buildingId, params.studentName, params.deptName, params.subId)))
  {
    ConfirmedExactly(answer);
    ScenarioDecides(params, post);
  }

  /** The scenario once the answers are read: the lookup gives `R1`/`B1`/`F3` and the reply
      is taken as a reservation. */
  lemma ScenarioDecides(params: Params, post: Payload -> Http<Json<SaveEnvelope>>)
    requires forall p :: post(p) == Received(Parsed(SaveEnvelope(Some("success"), Some("OK"), Missing)))
    ensures Decide(LookupSpec(ScenarioFloors(NotChosen), "Block36-314", "1"), params, true, post)
      == (Answered(Reserved(Some("OK"))),
          Some(Payload("R1", "B1", "F3", params.token, params.buildingId, params.studentName, params.deptName, params.subId)))
  {
    var ids := Ids(Some("R1"), Some("B1"), Some("F3"));
    ScenarioLookup();
    DecideCases(ids, params, true, post);
    DecideVerdict(ids, params, true, post);
  }

  /** The lookup of the scenario finds room `R1` and bed `B1`. */
  lemma ScenarioLookup()
    ensures LookupSpec(ScenarioFloors(NotChosen), "Block36-314", "1") == Ids(Some("R1"), Some("B1"), Some("F3"))
  {
    var floors := ScenarioFloors(NotChosen);
    assert FirstMatchFrom(floors[0].rooms[0].beds, "1", 0) == Some(0);
    LookupFirstRoom(floors, "Block36-314", "1", 0, 0);
  }

  /** The same catalog with the bed already taken: nothing is posted, whatever the answer. */
  lemma ScenarioTaken(params: Params, post: Payload -> Http<Json<SaveEnvelope>>,
                      roomInput: string, bedInput: string, answer: string)
    requires Strip(roomInput) == "Block36-314" && Strip(bedInput) == "1"
    ensures SelectSpec(ScenarioFloors("chosen"), params, roomInput, bedInput, answer, post) == (NotFound, None)
  {
    ScenarioTakenLookup();
    DecideCases(NoIds, params, Confirmed(answer), post);
  }

  /** With the bed taken the lookup records nothing. */
  lemma ScenarioTakenLookup()
    ensures LookupSpec(ScenarioFloors("chosen"), "Block36-314", "1") == NoIds
  {
    LookupNone(ScenarioFloors("chosen"), "Block36-314", "1");
  }

  /** Overwriting in action: a matching free bed whose id is empty does not stop the scan, so
      a later room of the same name replaces it. */
  lemma EmptyBedIdIsOverwritten()
    ensures LookupSpec([Floor(Missing, [
        Room(Str("A"), Some("R1"), Some("F1"), [Bed(Some("1"), Some(""), Some(NotChosen), None)]),
        Room(Str("A"), Some("R2"), Some("F1"), [Bed(Some("1"), Some("B2"), Some(NotChosen), None)])])], "A", "1")
      == Ids(Some("R2"), Some("B2"), Some("F1"))
  {
    var rooms := [
      Room(Str("A"), Some("R1"), Some("F1"), [Bed(Some("1"), Some(""), Some(NotChosen), None)]),
      Room(Str("A"), Some("R2"), Some("F1"), [Bed(Some("1"), Some("B2"), Some(NotChosen), None)])];
    var floors := [Floor(Missing, rooms)];
    var c1 := Ids(Some("R1"), Some(""), Some("F1"));
    var c2 := Ids(Some("R2"), Some("B2"), Some("F1"));
    assert FirstMatchFrom(rooms[0].beds, "1", 0) == Some(0);
    assert FirstMatchFrom(rooms[1].beds, "1", 0) == Some(0);
    RoomCandidatesHead(rooms, "A", "1");
    RoomCandidatesHead(rooms[1..], "A", "1");
    assert rooms[1..][1..] == [];
    ConcatMapSplit(FloorContribution("A", "1"), floors, 0);
    assert Candidates(floors, "A", "1") == [c1, c2];
    SettleFirstTruthy(NoIds, [c1, c2], 1);
  }

  /** `select_bed`: strip the two answers, look the pair up, then submit. */
  method SelectBed(floors: seq<Floor>, params: Params, roomInput: string, bedInput: string, answer: string,
                   post: Payload -> Http<Json<SaveEnvelope>>)
    returns (outcome: Outcome, sent: Option<Payload>)
    ensures (outcome, sent) == SelectSpec(floors, params, roomInput, bedInput, answer, post)
  {
    var roomName := Strip(roomInput);
    var bedName := Strip(bedInput);
    var ids := Lookup(floors, roomName, bedName);
    outcome, sent := Submit(ids, params, answer, post);
  }

  /** The rest of `select_bed`: stop unless all three ids were found, stop unless the operator
      confirms, then post the form and read the reply. */
  method Submit(ids: Ids, params: Params, answer: string, post: Payload -> Http<Json<SaveEnvelope>>)
    returns (outcome: Outcome, sent: Option<Payload>)
    ensures (outcome, sent) == Decide(ids, params, Confirmed(answer), post)
  {
    if !Resolved(ids) {
      return NotFound, None;
    }
    var p := BuildPayload(ids, params);
    var confirm := Lower(Strip(answer));
    if confirm != "y" {
      return Cancelled, None;
    }
    sent := Some(p);
    var reply := post(p);
    if reply.TransportError? {
      outcome := TransportFailed;
    } else if reply.body.Malformed? {
      outcome := BadJson;
    } else {
      var env := reply.body.value;
      if env.status == Some(SuccessStatus) {
        outcome := Answered(Reserved(env.data));
      } else {
        outcome := Answered(Rejected(env.message.Shown(UnknownError)));
      }
    }
  }
}
