/**
  The seed data the application starts from: four official chat rooms,
  three users with their posts and one friendship, and six therapists.
  Seed post timestamps are relative to the moment the data is loaded, given
  here as `loadTime` in milliseconds.
 */
module Constants {
  import opened Types
  import opened Seqs
  import opened App
  import opened Invariants

  const Hour: int := 60 * 60 * 1000

  /** The room ids the assessment analysis is told to choose from. */
  const AnalyzerRoomIds: seq<string> := ["depression", "anxiety", "trauma", "general"]

  const SeedRooms: seq<ChatRoom> := [
    ChatRoom("depression",
      Localized("Navigating Depression", "التغلب على الاكتئاب", "Naviguer la Dépression"),
      Localized("A space for sharing and support for those feeling down.",
                "مساحة للمشاركة والدعم لمن يشعرون بالإحباط.",
                "Un espace de partage et de soutien pour ceux qui se sentent déprimés."),
      "☁️", None, None, None),
    ChatRoom("anxiety",
      Localized("Anxiety Alliance", "تحالف ضد القلق", "Alliance Anxiété"),
      Localized("Find calm and coping strategies with others who understand.",
                "ابحث عن الهدوء واستراتيجيات التأقلم مع الآخرين الذين يفهمونك.",
                "Trouvez le calme et des stratégies d'adaptation avec d'autres qui comprennent."),
      "🌬️", None, None, None),
    ChatRoom("trauma",
      Localized("Healing from Trauma", "الشفاء من الصدمة", "Guérir du Traumatisme"),
      Localized("A safe place to process and heal from traumatic experiences.",
                "مكان آمن لمعالجة والشفاء من التجارب المؤلمة.",
                "Un lieu sûr pour traiter et guérir des expériences traumatisantes."),
      "❤️‍🩹", None, None, None),
    ChatRoom("general",
      Localized("General Wellness", "العافية العامة", "Bien-être Général"),
      Localized("For daily check-ins and general mental health discussions.",
                "للمتابعة اليومية ومناقشات الصحة النفسية العامة.",
                "Pour les bilans quotidiens et les discussions générales sur la santé mentale."),
      "☀️", None, None, None)
  ]

  /** The texts of the seed posts. */
  const Text101: string := "Feeling a bit overwhelmed with work this week, but trying to take it one day at a time. A walk in the park helped clear my head."
  const Text201: string := "Today I tried a new recipe for tagine and it turned out great! Small victories like this make me happy. 😊"
  const Text202: string := "The sunset in Rabat was absolutely breathtaking today."
  const Text301: string := "Has anyone read any good books lately? Looking for recommendations to help me disconnect from screens."

  /** The seed users; a missing bio is `None`, a missing image is `None`. */
  function SeedUsers(loadTime: int): seq<User> {
    [
      User("user-1", "Amine", None, Some("https://picsum.photos/seed/amine/200"), None,
        [Post(101,
           Text101,
           None, loadTime - 2 * Hour, "user-1", ["user-3"])],
        ["user-2"]),
      User("user-2", "Khadija", None, Some("https://picsum.photos/seed/khadija/200"), None,
        [Post(201,
           Text201,
           Some("https://picsum.photos/seed/tagine/400/300"), loadTime - 5 * Hour, "user-2", ["user-1"]),
         Post(202, Text202,
           None, loadTime - 28 * Hour, "user-2", [])],
        ["user-1"]),
      User("user-3", "Mehdi", None, Some("https://picsum.photos/seed/mehdi/200"), None,
        [Post(301,
           Text301,
           None, loadTime - 10 * Hour, "user-3", [])],
        [])
    ]
  }

  const SeedTherapists: seq<Therapist> := [
    Therapist(1, "Dr. Fatima El Fassi",
      Localized("Cognitive Behavioral Therapy", "العلاج السلوكي المعرفي", "Thérapie Cognitivo-Comportementale"),
      "Casablanca", "https://picsum.photos/seed/fatima/200"),
    Therapist(2, "Dr. Youssef Amrani",
      Localized("Anxiety & Stress Management", "إدارة القلق والتوتر", "Gestion de l'Anxiété et du Stress"),
      "Rabat", "https://picsum.photos/seed/youssef/200"),
    Therapist(3, "Dr. Sofia Benjelloun",
      Localized("Trauma & PTSD", "الصدمات واضطراب ما بعد الصدمة", "Traumatisme et TSPT"),
      "Marrakech", "https://picsum.photos/seed/sofia/200"),
    Therapist(4, "Dr. Karim Alaoui",
      Localized("Depression Therapy", "علاج الاكتئاب", "Thérapie de la Dépression"),
      "Fes", "https://picsum.photos/seed/karim/200"),
    Therapist(5, "Dr. Leila Tazi",
      Localized("Family Counseling", "الاستشارات الأسرية", "Conseil Familial"),
      "Tangier", "https://picsum.photos/seed/leila/200"),
    Therapist(6, "Dr. Omar Cherkaoui",
      Localized("Adolescent Psychology", "علم نفس المراهقين", "Psychologie de l'Adolescent"),
      "Casablanca", "https://picsum.photos/seed/omar/200")
  ]

  /** The state the application starts in: nobody signed in, the seed users and rooms, no requests. */
  function InitialState(loadTime: int): (s: State)
    ensures s.user.None? && s.friendRequests == []
    ensures s.allUsers == SeedUsers(loadTime)
    ensures s.allChatRooms == SeedRooms
  {
    State(None, SeedUsers(loadTime), SeedRooms, [])
  }

  /** The seed room ids are exactly the analysis vocabulary, in the same order. */
  lemma SeedRoomIdsAreVocabulary()
    ensures |SeedRooms| == |AnalyzerRoomIds|
    ensures forall i :: 0 <= i < |SeedRooms| ==> SeedRooms[i].id == AnalyzerRoomIds[i]
  {
  }

  /** Every seed room is official: not private, without owner or member list. */
  lemma SeedRoomsOfficial()
    ensures forall i :: 0 <= i < |SeedRooms| ==>
      SeedRooms[i].isPrivate.None? && SeedRooms[i].ownerId.None? && SeedRooms[i].members.None?
  {
  }

  /** The seed user ids and post counts. */
  lemma SeedUsersIds(loadTime: int)
    ensures var us := SeedUsers(loadTime);
      && |us| == 3
      && us[0].id == "user-1" && us[1].id == "user-2" && us[2].id == "user-3"
      && |us[0].posts| == 1 && |us[1].posts| == 2 && |us[2].posts| == 1
  {
  }

  /** The seed post ids and authors. */
  lemma SeedUsersPosts(loadTime: int)
    ensures var us := SeedUsers(loadTime);
      && |us| == 3 && |us[0].posts| == 1 && |us[1].posts| == 2 && |us[2].posts| == 1
      && us[0].posts[0].id == 101 && us[1].posts[0].id == 201 && us[1].posts[1].id == 202 && us[2].posts[0].id == 301
      && us[0].posts[0].authorId == "user-1" && us[1].posts[0].authorId == "user-2"
      && us[1].posts[1].authorId == "user-2" && us[2].posts[0].authorId == "user-3"
  {
  }

  /** The seed likes and friend lists. */
  lemma SeedUsersLinks(loadTime: int)
    ensures var us := SeedUsers(loadTime);
      && |us| == 3 && |us[0].posts| == 1 && |us[1].posts| == 2 && |us[2].posts| == 1
      && us[0].posts[0].likes == ["user-3"] && us[1].posts[0].likes == ["user-1"]
      && us[1].posts[1].likes == [] && us[2].posts[0].likes == []
      && us[0].friends == ["user-2"] && us[1].friends == ["user-1"] && us[2].friends == []
  {
  }

  /** The ids, posts, likes and friend lists of the seed users. */
  ghost predicate SeedShape(us: seq<User>) {
    && |us| == 3
    && us[0].id == "user-1" && us[1].id == "user-2" && us[2].id == "user-3"
    && |us[0].posts| == 1 && |us[1].posts| == 2 && |us[2].posts| == 1
    && us[0].posts[0].id == 101 && us[1].posts[0].id == 201 && us[1].posts[1].id == 202 && us[2].posts[0].id == 301
    && us[0].posts[0].authorId == "user-1" && us[1].posts[0].authorId == "user-2"
    && us[1].posts[1].authorId == "user-2" && us[2].posts[0].authorId == "user-3"
    && us[0].posts[0].likes == ["user-3"] && us[1].posts[0].likes == ["user-1"]
    && us[1].posts[1].likes == [] && us[2].posts[0].likes == []
    && us[0].friends == ["user-2"] && us[1].friends == ["user-1"] && us[2].friends == []
  }

  /** Users shaped like the seed users have distinct ids, and distinct post ids, each post with its author. */
  lemma SeedShapePostsWellFormed(us: seq<User>)
    requires SeedShape(us)
    ensures UniqueIds(us) && PostsAuthored(us) && PostIdsUnique(us)
  {
    forall i, j | 0 <= i < |us| && 0 <= j < |us[i].posts|
      ensures us[i].posts[j].id == 100 * (i + 1) + j + 1
    {
    }
  }

  /** In users shaped like the seed users every like and friend is a listed user, and friendship is mutual. */
  lemma SeedShapeLinksWellFormed(us: seq<User>)
    requires SeedShape(us)
    ensures LikesKnown(us) && LikesDistinct(us) && FriendsKnown(us) && FriendsSymmetric(us) && NoSelfFriend(us)
  {
    assert IsUserId(us, "user-1") && IsUserId(us, "user-2") && IsUserId(us, "user-3");
  }

  /** The seed users are well formed, whatever the load time. */
  lemma SeedUsersWellFormed(loadTime: int)
    ensures UsersWellFormed(SeedUsers(loadTime))
  {
    SeedUsersIds(loadTime);
    SeedUsersPosts(loadTime);
    SeedUsersLinks(loadTime);
    SeedShapePostsWellFormed(SeedUsers(loadTime));
    SeedShapeLinksWellFormed(SeedUsers(loadTime));
  }

  /** The application starts in a well-formed state. */
  lemma InitialStateWellFormed(loadTime: int)
    ensures WellFormed(InitialState(loadTime))
  {
    SeedUsersWellFormed(loadTime);
    assert RoomIdsUnique(SeedRooms);
  }

  /** There are six seed therapists, each in one of five cities. */
  lemma SeedTherapistCities()
    ensures forall i :: 0 <= i < |SeedTherapists| ==>
      SeedTherapists[i].city in ["Casablanca", "Rabat", "Marrakech", "Fes", "Tangier"]
    ensures |SeedTherapists| == 6
  {
  }
}
