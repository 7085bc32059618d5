/** `main`: read the profile, read the selection context, gather the catalog, then hand over to
    the selection step; each stage's result must be present and truthy or the run ends. */
module Pipeline {
  import opened Wrappers
  import opened Replies
  import Profile
  import EntryPage
  import Aggregator
  import Submitter
  import Text
  import Housing

  /** The stage at which a run stopped. */
  datatype Stage = ProfileStage | ContextStage | CatalogStage

  datatype Run = Aborted(stage: Stage) | Finished(outcome: Submitter.Outcome)

  /** The parameters `main` assembles for the selection step (`selection_final_params`). */
  function SelectionParams(id: Profile.Identity, ctx: EntryPage.Context): Submitter.Params {
    Submitter.Params(ctx.token, ctx.buildingId, id.name, ctx.subId, id.college)
  }

  /** The run once the profile gave `id`: the entry page is requested for that student. */
  function AfterProfile(id: Profile.Identity, entry: Profile.Identity -> Http<EntryPage.Page>,
                        floorShow: string -> Http<Json<Aggregator.Envelope>>,
                        post: Submitter.Payload -> Http<Json<Submitter.SaveEnvelope>>,
                        roomInput: string, bedInput: string, answer: string): (Run, Option<Submitter.Payload>) {
    match EntryPage.ReadContext(entry(id))
    case Failure(_) => (Aborted(ContextStage), None)
    case Success(ctx) =>
      if !EntryPage.Usable(ctx) then (Aborted(ContextStage), None)
      else AfterContext(id, ctx, floorShow, post, roomInput, bedInput, answer)
  }

  /** The run once the selection context is known: the catalog is gathered with its routing ids. */
  function AfterContext(id: Profile.Identity, ctx: EntryPage.Context,
                        floorShow: string -> Http<Json<Aggregator.Envelope>>,
                        post: Submitter.Payload -> Http<Json<Submitter.SaveEnvelope>>,
                        roomInput: string, bedInput: string, answer: string): (Run, Option<Submitter.Payload>) {
    match Aggregator.AggregateSpec(ctx.buildingId, ctx.subId, floorShow)
    case Failure(_) => (Aborted(CatalogStage), None)
    case Success(floors) =>
      var (outcome, sent) := Submitter.SelectSpec(floors, SelectionParams(id, ctx), roomInput, bedInput, answer, post);
      (Finished(outcome), sent)
  }

  /** The whole run; the remote pages and the console answers are parameters. */
  function RunSpec(profilePage: Http<Option<seq<string>>>, entry: Profile.Identity -> Http<EntryPage.Page>,
                   floorShow: string -> Http<Json<Aggregator.Envelope>>,
                   post: Submitter.Payload -> Http<Json<Submitter.SaveEnvelope>>,
                   roomInput: string, bedInput: string, answer: string): (Run, Option<Submitter.Payload>) {
    match Profile.ReadProfile(profilePage)
    case Failure(_) => (Aborted(ProfileStage), None)
    case Success(id) =>
      if !Profile.Usable(id) then (Aborted(ProfileStage), None)
      else AfterProfile(id, entry, floorShow, post, roomInput, bedInput, answer)
  }

  /** The run is driven to the selection step exactly when the profile gives a name and a
      college, the entry page for that student gives a token and both routing ids, and the
      catalog is gathered; otherwise it stops at the first stage that fails and posts nothing. */
  lemma RunReachesSelection(profilePage: Http<Option<seq<string>>>, entry: Profile.Identity -> Http<EntryPage.Page>,
                            floorShow: string -> Http<Json<Aggregator.Envelope>>,
                            post: Submitter.Payload -> Http<Json<Submitter.SaveEnvelope>>,
                            roomInput: string, bedInput: string, answer: string)
    ensures var (run, sent) := RunSpec(profilePage, entry, floorShow, post, roomInput, bedInput, answer);
      var pr := Profile.ReadProfile(profilePage);
      && (run == Aborted(ProfileStage) <==> !(pr.Success? && Profile.Usable(pr.value)))
      && (run.Finished? <==>
           && pr.Success? && Profile.Usable(pr.value)
           && var cr := EntryPage.ReadContext(entry(pr.value));
           && cr.Success? && EntryPage.Usable(cr.value)
           && Aggregator.AggregateSpec(cr.value.buildingId, cr.value.subId, floorShow).Success?)
      && (run.Aborted? ==> sent.None?)
  {
  }

  /** A posted form carries the student's name and college from the profile, the token and
      routing ids from the entry page requested for that student, and the ids of a free bed of
      the gathered catalog whose room and bed names are the operator's stripped answers. */
  lemma PostedFormProvenance(profilePage: Http<Option<seq<string>>>, entry: Profile.Identity -> Http<EntryPage.Page>,
                             floorShow: string -> Http<Json<Aggregator.Envelope>>,
                             post: Submitter.Payload -> Http<Json<Submitter.SaveEnvelope>>,
                             roomInput: string, bedInput: string, answer: string)
    requires RunSpec(profilePage, entry, floorShow, post, roomInput, bedInput, answer).1.Some?
    ensures var p := RunSpec(profilePage, entry, floorShow, post, roomInput, bedInput, answer).1.value;
      && Profile.ReadProfile(profilePage).Success?
      && var id := Profile.ReadProfile(profilePage).value;
      && EntryPage.ReadContext(entry(id)).Success?
      && var ctx := EntryPage.ReadContext(entry(id)).value;
      && Aggregator.AggregateSpec(ctx.buildingId, ctx.subId, floorShow).Success?
      && var floors := Aggregator.AggregateSpec(ctx.buildingId, ctx.subId, floorShow).value;
      && p.studentName == id.name && p.deptName == id.college && p.studentName != [] && p.deptName != []
      && p.token == ctx.token && p.buildingId == ctx.buildingId && p.subId == ctx.subId
      && p.token != [] && p.buildingId != [] && p.subId != []
      && exists i, j, k ::
        && 0 <= i < |floors| && 0 <= j < |floors[i].rooms| && 0 <= k < |floors[i].rooms[j].beds|
        && floors[i].rooms[j].name == Str(Text.Strip(roomInput))
        && floors[i].rooms[j].beds[k].name == Some(Text.Strip(bedInput)) && Housing.IsFree(floors[i].rooms[j].beds[k])
        && floors[i].rooms[j].id == Some(p.roomId) && floors[i].rooms[j].beds[k].id == Some(p.bedId)
        && floors[i].rooms[j].floorId == Some(p.floorId)
  {
    var id := Profile.ReadProfile(profilePage).value;
    var ctx := EntryPage.ReadContext(entry(id)).value;
    var floors := Aggregator.AggregateSpec(ctx.buildingId, ctx.subId, floorShow).value;
    Submitter.PostedFormOrigin(floors, SelectionParams(id, ctx), roomInput, bedInput, answer, post);
  }

  /** `main`, after the command line and the session set-up. */
  method RunPipeline(profilePage: Http<Option<seq<string>>>, entry: Profile.Identity -> Http<EntryPage.Page>,
                     floorShow: string -> Http<Json<Aggregator.Envelope>>,
                     post: Submitter.Payload -> Http<Json<Submitter.SaveEnvelope>>,
                     roomInput: string, bedInput: string, answer: string)
    returns (run: Run, sent: Option<Submitter.Payload>)
    ensures (run, sent) == RunSpec(profilePage, entry, floorShow, post, roomInput, bedInput, answer)
  {
    var profile := Profile.ReadProfile(profilePage);
    if profile.Failure? || !Profile.Usable(profile.value) {
      return Aborted(ProfileStage), None;
    }
    var id := profile.value;
    var context := EntryPage.ReadContext(entry(id));
    if context.Failure? || !EntryPage.Usable(context.value) {
      return Aborted(ContextStage), None;
    }
    var ctx := context.value;
    var catalog := Aggregator.Aggregate(ctx.buildingId, ctx.subId, floorShow);
    if catalog.Failure? {
      return Aborted(CatalogStage), None;
    }
    var outcome;
    outcome, sent := Submitter.SelectBed(catalog.value, SelectionParams(id, ctx), roomInput, bedInput, answer, post);
    run := Finished(outcome);
  }
}
