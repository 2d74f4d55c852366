/**
  The domain records shared by the state container and every page:
  display languages, users with their posts and friends, chat rooms,
  friend requests, assessment results, therapists and onboarding questions.
  Optional and nullable record fields are `Option`s.
 */
module Types {

  /** The conventional Some/None wrapper, used for every optional or nullable field. */
  datatype Option<+T> = None | Some(value: T)

  /** The three display languages. */
  datatype Language = En | Ar | Fr {

    /** The language tag the interface uses for this language. */
    function Code(): (code: string)
      ensures |code| == 2
    {
      match this
      case En => "en"
      case Ar => "ar"
      case Fr => "fr"
    }
  }

  /** Reads a language tag back; any other tag is not a language. */
  function ParseLanguage(code: string): (r: Option<Language>)
    ensures r.Some? ==> r.value.Code() == code
    ensures forall l: Language :: l.Code() == code ==> r == Some(l)
  {
    if code == "en" then Some(En)
    else if code == "ar" then Some(Ar)
    else if code == "fr" then Some(Fr)
    else None
  }

  /** A text given in every display language (a total per-language mapping). */
  datatype Localized = Localized(en: string, ar: string, fr: string) {
    function Get(lang: Language): string {
      match lang
      case En => en
      case Ar => ar
      case Fr => fr
    }
  }

  /** The same text for all three languages. */
  function Uniform(text: string): (l: Localized)
    ensures forall lang: Language :: l.Get(lang) == text
  {
    Localized(text, text, text)
  }

  /** What the external analysis returns about a finished assessment. */
  datatype AssessmentResult = AssessmentResult(
    primaryConcern: string,
    summary: string,
    recommendedRoomIds: seq<string>)

  /** A post; `timestamp` is a clock reading in milliseconds. */
  datatype Post = Post(
    id: int,
    text: string,
    imageUrl: Option<string>,
    timestamp: int,
    authorId: string,
    likes: seq<string>)

  /** A user; `posts` is kept newest first, `friends` holds user ids. */
  datatype User = User(
    id: string,
    name: string,
    bio: Option<string>,
    avatar: Option<string>,
    assessmentResult: Option<AssessmentResult>,
    posts: seq<Post>,
    friends: seq<string>)

  /** A chat room; official rooms leave the last three fields out. */
  datatype ChatRoom = ChatRoom(
    id: string,
    name: Localized,
    description: Localized,
    icon: string,
    isPrivate: Option<bool>,
    ownerId: Option<string>,
    members: Option<seq<string>>)

  datatype Therapist = Therapist(
    id: int,
    name: string,
    specialty: Localized,
    city: string,
    avatar: string)

  datatype RequestStatus = Pending | Accepted | Declined

  datatype FriendRequest = FriendRequest(fromUserId: string, toUserId: string, status: RequestStatus)

  datatype Question = Question(question: string, options: seq<string>)
}
