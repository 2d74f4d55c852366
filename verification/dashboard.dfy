/**
  The dashboard: an error view without a signed-in user holding an
  assessment result; otherwise the result, the recommended seed rooms and
  a prompt when the profile is incomplete.
 */
module Dashboard {
  import opened Types
  import opened Seqs
  import opened Text
  import opened App
  import opened Constants
  import ChatRooms

  datatype View =
    | ErrorView
    | ResultView(primaryConcern: string, summary: string, rooms: seq<ChatRoom>, incomplete: bool)

  /** The seed rooms whose id is recommended, in seed order; unknown ids and created rooms never appear. */
  function RecommendedRooms(ids: seq<string>): (r: seq<ChatRoom>)
    ensures forall room :: room in r <==> room in SeedRooms && room.id in ids
    ensures Subsequence(r, SeedRooms)
    ensures forall room :: room in r ==> room.isPrivate.None? && room.ownerId.None?
  {
    SeedRoomsOfficial();
    Filter((room: ChatRoom) => room.id in ids, SeedRooms)
  }

  /** Recommending the whole analysis vocabulary lists every seed room. */
  lemma VocabularyRecommendsAll()
    ensures RecommendedRooms(AnalyzerRoomIds) == SeedRooms
  {
    SeedRoomIdsAreVocabulary();
    FilterKeepsAll((room: ChatRoom) => room.id in AnalyzerRoomIds, SeedRooms);
  }

  /**
    The dashboard and the chat rooms page agree: a seed room is listed on
    the dashboard exactly when the chat rooms page marks it recommended.
   */
  lemma PagesAgreeOnRecommendations(s: State, room: ChatRoom)
    requires Render(s).ResultView? && room in SeedRooms
    ensures room in Render(s).rooms <==> ChatRooms.IsRecommended(s, room)
  {
  }

  /** A string field is falsy when it is missing or empty. */
  predicate Falsy(field: Option<string>) {
    field.None? || field.value == ""
  }

  /** The avatar is falsy, the bio is missing or blank, or the name is still the placeholder. */
  predicate IsProfileIncomplete(u: User) {
    Falsy(u.avatar) || u.bio.None? || Blank(u.bio.value) || u.name == NewUserName
  }

  function Render(s: State): (v: View)
    ensures v.ErrorView? <==> s.user.None? || s.user.value.assessmentResult.None?
    ensures v.ResultView? ==>
      var result := s.user.value.assessmentResult.value;
      && v.primaryConcern == result.primaryConcern && v.summary == result.summary
      && v.rooms == RecommendedRooms(result.recommendedRoomIds)
      && (forall room :: room in v.rooms <==> room in SeedRooms && room.id in result.recommendedRoomIds)
      && (v.incomplete <==> IsProfileIncomplete(s.user.value))
  {
    match s.user
    case None => ErrorView
    case Some(u) =>
      match u.assessmentResult
      case None => ErrorView
      case Some(result) =>
        ResultView(result.primaryConcern, result.summary, RecommendedRooms(result.recommendedRoomIds), IsProfileIncomplete(u))
  }

  /**
    The user a finished assessment creates is always prompted to complete
    the profile (when the clock gives an id not in use, so that the effect
    keeps the new user current).
   */
  lemma NewUserIncomplete(s: State, result: AssessmentResult, now: nat)
    requires UniqueIds(s.allUsers)
    requires forall u :: u in s.allUsers ==> u.id != UserIdAt(now)
    ensures var r := Step(s, CompleteAssessmentCall(result, now));
      && Render(r).ResultView?
      && Render(r).incomplete
  {
    CompleteAssessmentStaysCurrent(s, result, now);
  }

  /** Setting a non-blank bio, a new name and a non-empty avatar completes the profile. */
  lemma CompletedProfile(s: State, name: string, bio: string, avatarUrl: string)
    requires s.user.Some? && !Blank(bio) && name != NewUserName && avatarUrl != ""
    ensures var r := UpdateAvatar(UpdateProfile(s, name, bio), avatarUrl);
      r.user.Some? && !IsProfileIncomplete(r.user.value)
  {
  }
}
