# niema social state, modelled in Dafny

niema is a bilingual (Arabic, French, English) mental-wellness web
application. Its core is an in-memory social state held by the root
component: the signed-in user, the list of all users with their posts,
likes and friends, the chat rooms, and the friend requests. Eight handlers
change that state, and an effect re-reads the signed-in user from the list
of all users whenever that list changes. The pages read the state through
selectors: the global feed, the own feed, the friends tabs, the room lists,
the dashboard, the onboarding questionnaire, the chat bot and the therapist
directory.

This project models that core as pure Dafny functions over immutable
datatypes and proves properties about it:

- every handler, followed by the effect, keeps a well-formedness invariant
  (unique user ids, posts sitting with their author, unique post ids, likes
  and friends naming listed users, no user liking a post twice, symmetric
  friendship, no self-friendship, one request per pair, unique room ids);
- the seed data satisfies that invariant;
- liking toggles (an odd number of presses flips a like, an even number
  restores it);
- what every page selector shows, and the page-level state machines for
  posting, room creation, onboarding and the chat.

Files, one module each:

| file | module | models |
|---|---|---|
| types.dfy | Types | the records of `types.ts` |
| seqs.dfy | Seqs | `filter`, `find`, last-wins lookup, the membership toggle |
| text.dfy | Text | `trim`, ASCII `toLowerCase`, `includes`, decimal rendering of clock readings |
| app.dfy | App | the handlers and the effect of `App.tsx`, and the transition `Step` |
| invariants.dfy | Invariants | the well-formedness invariant and its preservation |
| constants.dfy | Constants | the seed rooms, users and therapists of `constants.ts` |
| friends.dfy | Friends | the friends page |
| chat_rooms.dfy | ChatRooms | the chat rooms page |
| create_room_modal.dfy | CreateRoomModal | the private-room dialog |
| dashboard.dfy | Dashboard | the dashboard |
| home.dfy | Home | the global feed |
| feed.dfy | Feed | the own feed and the post composer |
| onboarding.dfy | Onboarding | the assessment questionnaire |
| chatbot.dfy | Chatbot | the support chat |
| therapists.dfy | Therapists | the therapist directory |

Modelling decisions:

- **Clock.** `Date.now()` is a parameter `now: nat` of every handler that reads it.
  - A new user's id is `"user-"` followed by the decimal reading.
  - A new room's id is `"room-"` followed by the decimal reading.
  - A new post takes the reading as its id and as its timestamp (in milliseconds).
- **Fresh ids.** Two users are never created at one clock reading, and a post id is never reused. `Invariants.Admissible` states these assumptions, and the preservation lemmas require them.
- **Lookups.** `Array.prototype.find` returns the first match (`App.FindUser`). A lookup in a `Map` built from the users list returns the last match (`App.LookupUser`). The two agree when ids are unique (`App.LookupIsFindWhenUnique`).
- **React updates.** Each handler is one state transition. The effect at `App.tsx:206-213` runs after every handler that passes a new list of all users to the container (`App.Step`).
- **External services.** The question fetch, the analysis and the chat reply are services outside the model. Their outcomes are parameters.
- **Blank posts.** The `addPost` handler (`App.tsx:88-107`) has no blank-text guard; the composer has one (`pages/Feed.tsx:25`). `Feed.BlankTextNeverPosted` shows both facts: the composer never posts blank text, and `App.AddPost` would accept it.

## Model

| member | source | states |
|---|---|---|
| Types.ParseLanguage | types.ts:1-5 | reading a language tag back gives the language with that tag, and nothing for any other tag |
| Types.Uniform | App.tsx:157-158 | a localized text built from one string reads that string in every language |
| Text.TrimEmptyIffBlank | pages/Feed.tsx:25 | `trim()` yields the empty string exactly when every character is ECMAScript white space |
| Text.TrimsToEmpty | components/CreateRoomModal.tsx:31 | the guard `s.trim() === ''` holds exactly when the input is blank |
| Text.LowerForgetsCase | pages/Therapists.tsx:13 | lowering is idempotent and undoes upper-casing |
| Text.LowerIdentifiesCaseVariants | pages/Therapists.tsx:13 | two strings lower to the same string exactly when they differ only by ASCII case changes, letter by letter, in any mix |
| Text.Includes | pages/Therapists.tsx:13 | `includes` holds exactly when the needle occurs as a contiguous block |
| Text.DecimalStringInjective | App.tsx:76 | different clock readings render as different decimal strings |
| Seqs.Filter | pages/Friends.tsx:52 | `filter` keeps exactly the elements satisfying the predicate, each with its multiplicity, in order, as a subsequence |
| Seqs.FilterKeepsAll | pages/Home.tsx:27 | a filter whose predicate holds everywhere returns the list unchanged |
| Seqs.FilterNoDup | pages/Friends.tsx:140 | filtering a list without repeats gives a list without repeats |
| Seqs.Find | App.tsx:147 | `find` returns the first matching element, and nothing exactly when none matches |
| Seqs.LastIndex | pages/Home.tsx:15-17 | the last matching position, and nothing exactly when none matches |
| Seqs.Toggle | components/CreateRoomModal.tsx:21-27 | toggling flips the membership of one element, keeps everyone else's membership and multiplicity, leaves at most one copy of the element, and keeps a list free of repeats |
| Seqs.ToggleTwiceMembership | components/CreateRoomModal.tsx:21-27 | toggling the same element twice restores the membership of every element |
| Seqs.ToggleTwiceAbsent | components/CreateRoomModal.tsx:21-27 | ticking an absent element twice gives back exactly the list it started from |
| Seqs.FilterRemovesCount | App.tsx:137 | filtering out an element shortens the list by that element's number of occurrences |
| App.UserIdAtInjective | App.tsx:76 | users created at different clock readings get different ids |
| App.FindUser | App.tsx:208 | the first listed user with the id; nothing exactly when no listed user has the id |
| App.FindListedUser | App.tsx:147 | with unique ids, looking up a listed user's id finds that user |
| App.LookupUser | pages/Home.tsx:15-17 | the `Map` lookup returns a listed user with the id that no later entry shares; nothing exactly when the id is unlisted |
| App.LookupIsFindWhenUnique | pages/Friends.tsx:97 | with unique ids the `Map` lookup and `find` agree |
| App.CompleteAssessment | App.tsx:74-86 | appends one new user with a clock-derived id, the placeholder name, empty bio and avatar, the result, and no posts or friends; the new user becomes current; rooms and requests are unchanged |
| App.AddPost | App.tsx:88-107 | without a user nothing changes; otherwise a post with the clock reading as id and timestamp, the user as author and no likes is put first in the user's posts, in the current record and in every listed record with that id |
| App.UpdateProfile | App.tsx:109-116 | without a user nothing changes; otherwise the name and bio are set on the current user and on every listed record with that id |
| App.UpdateAvatar | App.tsx:118-125 | without a user nothing changes; otherwise the avatar is set on the current user and on every listed record with that id |
| App.ToggleLikeInPosts | App.tsx:133-142 | each post with the id has the user's like flipped; every other post is unchanged |
| App.ToggleLikeInUsers | App.tsx:131-143 | every user keeps everything but their posts, and every post list gets the like toggle |
| App.ToggleLikePost | App.tsx:127-151 | without a user nothing changes; otherwise every user's posts get the toggle and the current user is re-read by `find` when listed |
| App.CreateRoom | App.tsx:153-165 | without a user nothing changes; otherwise one private room is appended, with a clock-derived id, the same name and description in every language, the current user as owner, and the user followed by the invitees as members |
| App.FindLink | App.tsx:169-172 | the first request relating the two users in either direction, and nothing exactly when none exists |
| App.SendFriendRequest | App.tsx:167-181 | without a user, or when any request relates the pair in either direction, nothing changes; otherwise one pending request is appended; one request per pair is kept |
| App.RespondToFriendRequest | App.tsx:183-204 | every request from the sender to the current user takes the answer's status and the other requests stay; an acceptance appends each id to the other user's friends and changes no other user; a decline changes no user |
| App.RespondKeepsPairsUnique | App.tsx:187-191 | answering never gives an unordered pair a second request |
| App.SyncCurrentUser | App.tsx:206-213 | the effect changes only the current user, keeps its id, and replaces it by the first listed record with that id when there is one |
| App.SyncIdempotent | App.tsx:206-213 | running the effect twice is running it once; afterwards a listed current user is in sync |
| App.SyncIsIdentityWhenInSync | App.tsx:206-213 | with unique ids and the current user listed, the effect changes nothing |
| App.Step | App.tsx:206-213 | after exactly the handlers that pass a new list of all users to the container, the effect runs on the handler's result; after the others the handler's result stands |
| App.HandlerAgreesWithEffect | App.tsx:88-151 | for the handlers that update the current user themselves, the effect agrees with the handler and keeps the state in sync |
| App.CompleteAssessmentStaysCurrent | App.tsx:74-86 | with a fresh id, the created user stays current after the effect and is the last listed user |
| App.ToggleUsersParity | App.tsx:131-143 | applying the toggle n times flips the like when n is odd and restores it when n is even; nothing else about any post changes |
| App.ToggleTimesUsers | App.tsx:127-151 | n calls of the handler act on the list of all users as n toggles by the same user |
| App.ToggleParity | App.tsx:127-151 | after n calls of the handler every post with the id has the user's like flipped exactly when n is odd |
| App.CrossRequestIgnored | App.tsx:169-173 | once A has asked B, B asking A adds no request |
| App.RespondKeepsIds | App.tsx:194-202 | answering keeps the number of users and every user's id at its position, and so keeps ids unique |
| App.AcceptMakesFriends | App.tsx:183-213 | after an acceptance both users list each other, the current user reads its new friend list, and every request from the sender is accepted |
| App.AcceptUpdatesBoth | App.tsx:193-213 | after an acceptance the current user and the sender's record each gain the other's id |
| App.AcceptMarksRequests | App.tsx:187-191 | after an acceptance every request from the sender to the current user is accepted |
| App.DeclineChangesNoUser | App.tsx:183-204 | a decline changes no user and marks the answered requests declined |
| Invariants.CompleteAssessmentPreserves | App.tsx:74-86 | with a fresh id, creating a user keeps the state well formed |
| Invariants.AppendFreshUserWellFormed | App.tsx:84 | appending a user with a new id, no posts and no friends keeps the users list well formed |
| Invariants.AddPostPreserves | App.tsx:88-107 | with a fresh post id, posting keeps the state well formed |
| Invariants.UpdatePreserves | App.tsx:109-125 | updating the profile or the avatar keeps the state well formed |
| Invariants.ToggleLikePreserves | App.tsx:127-151 | toggling a like keeps the state well formed |
| Invariants.ToggledUsersWellFormed | App.tsx:131-143 | a like toggle by a listed user keeps the users list well formed |
| Invariants.CreateRoomPreserves | App.tsx:153-165 | with a fresh room id, creating a room keeps the state well formed |
| Invariants.SendFriendRequestPreserves | App.tsx:167-181 | sending a request keeps the state well formed |
| Invariants.DeclinePreserves | App.tsx:183-204 | declining keeps the state well formed |
| Invariants.AcceptPreserves | App.tsx:183-213 | accepting a request from another listed user keeps the state well formed, friendship symmetric included |
| Invariants.AcceptKeepsUsers | App.tsx:194-202 | the friend-list update of an acceptance keeps the users list well formed |
| Invariants.StepPreservesWellFormed | App.tsx:74-213 | every admissible handler call, followed by the effect, keeps the state well formed |
| Invariants.RunPreservesWellFormed | App.tsx:74-213 | every admissible sequence of handler calls keeps the state well formed |
| Invariants.ToggleHitsOnePost | App.tsx:133-142 | with unique post ids, a like toggle changes at most one post across all users |
| Invariants.ToggleChangesTarget | App.tsx:133-142 | a like toggle changes a post exactly when the post has the toggled id |
| Constants.InitialState | App.tsx:59-62 | the application starts with nobody signed in, the seed users and rooms, and no requests |
| Constants.SeedRoomIdsAreVocabulary | constants.ts:12-37 | the seed room ids are, in order, the room ids the analysis may recommend |
| Constants.SeedRoomsOfficial | constants.ts:12-37 | every seed room is official: not private, no owner, no member list |
| Constants.SeedUsersIds | constants.ts:39-95 | the seed users are user-1, user-2 and user-3, with one, two and one posts |
| Constants.SeedUsersPosts | constants.ts:39-95 | the seed posts have ids 101, 201, 202 and 301 and sit with their authors |
| Constants.SeedUsersLinks | constants.ts:39-95 | the seed likes and friend lists |
| Constants.SeedUsersWellFormed | constants.ts:39-95 | the seed users are well formed whatever the load time |
| Constants.InitialStateWellFormed | constants.ts:12-95 | the initial state is well formed |
| Constants.SeedTherapistCities | constants.ts:3-10 | there are six seed therapists, each in one of five cities |
| Friends.OtherUsers | pages/Friends.tsx:49-53 | the people offered are exactly the listed users other than oneself and one's friends, each with its multiplicity, in list order; none without a user |
| Friends.RequestStatusFor | pages/Friends.tsx:55-62 | the status of the first request relating the pair in either direction, and none exactly when no such request exists |
| Friends.SendEnabled | pages/Friends.tsx:82 | the send button is disabled exactly while the shown status is pending or accepted |
| Friends.SendIsNoOpIffStatusShown | pages/Friends.tsx:55-62 | sending changes nothing exactly when the page shows some status for the pair |
| Friends.DeclinedSendIsNoOp | pages/Friends.tsx:82 | after a decline the button is enabled again, but pressing it changes nothing |
| Friends.SendThenPending | pages/Friends.tsx:82-85 | a first request shows as pending and disables the button |
| Friends.IncomingRequests | pages/Friends.tsx:99-102 | the incoming list holds exactly the pending requests addressed to the user, each with its multiplicity, in list order |
| Friends.AnsweredLeavesIncoming | pages/Friends.tsx:120-123 | answering a sender either way removes that sender's requests from the incoming list and keeps the others |
| Friends.Sender | pages/Friends.tsx:111-112 | a request row shows a listed user with the sender id, and none exactly when the sender is unlisted |
| Friends.MyFriends | pages/Friends.tsx:138-141 | the friends tab holds exactly the listed users whose id is among the user's friends, each with its multiplicity, in list order |
| Friends.MyFriendsListedOnce | pages/Friends.tsx:138-141 | with unique ids nobody appears twice in the friends tab, however often an id was appended |
| Friends.AcceptListsFriend | pages/Friends.tsx:49-53 | after an acceptance the new friend is in the friends tab and no longer offered |
| ChatRooms.OfficialRooms | pages/ChatRooms.tsx:14 | exactly the rooms whose `isPrivate` is absent or false, each with its multiplicity, in list order |
| ChatRooms.PrivateRooms | pages/ChatRooms.tsx:15 | exactly the private rooms whose members include the viewer's id, each with its multiplicity, in list order |
| ChatRooms.OfficialAndPrivateDisjoint | pages/ChatRooms.tsx:14-15 | no room is listed both as official and as private |
| ChatRooms.IsRecommended | pages/ChatRooms.tsx:41-45 | a room is marked when its id is among the ids the viewer's result recommends |
| ChatRooms.NothingRecommendedWithoutResult | pages/ChatRooms.tsx:11 | without a viewer holding a result, no room is marked |
| ChatRooms.Owner | pages/ChatRooms.tsx:73 | a missing or empty owner id shows nobody; otherwise the listed user with that id, if any |
| ChatRooms.CreatedRoomVisibleToCreator | pages/ChatRooms.tsx:14-15 | a created room is among its creator's private rooms, never official, and shows the creator as owner |
| CreateRoomModal.ToggleFriend | components/CreateRoomModal.tsx:21-27 | ticking flips one friend's selection, keeps the others, and never duplicates an id |
| CreateRoomModal.ToggleFriendTwice | components/CreateRoomModal.tsx:21-27 | ticking the same friend twice restores the selection as a set |
| CreateRoomModal.TicksKeepSelectionDistinct | components/CreateRoomModal.tsx:21-27 | any run of ticks keeps the selection free of repeated ids |
| CreateRoomModal.RoomDescription | components/CreateRoomModal.tsx:32 | the description is the text "A private room created by ", the owner's name and a final full stop |
| CreateRoomModal.Submit | components/CreateRoomModal.tsx:29-37 | a blank name or no user changes nothing; otherwise the room is created with the untrimmed name and the selection, and the dialog is cleared and closed |
| CreateRoomModal.SubmitCreatesJoinedRoom | components/CreateRoomModal.tsx:29-37 | an accepted submit adds one room, owned by the creator, with the creator and the selected friends as members, listed among the creator's private rooms |
| Dashboard.RecommendedRooms | pages/Dashboard.tsx:22 | exactly the seed rooms whose id is recommended, in seed order; created rooms never appear |
| Dashboard.VocabularyRecommendsAll | pages/Dashboard.tsx:22 | recommending the whole vocabulary lists every seed room |
| Dashboard.PagesAgreeOnRecommendations | pages/Dashboard.tsx:21-22 | a seed room is listed on the dashboard exactly when the chat rooms page marks it recommended |
| Dashboard.Render | pages/Dashboard.tsx:12-23 | the error view appears exactly without a user holding a result; otherwise the result, the recommended seed rooms in seed order, and the incomplete-profile flag |
| Dashboard.IsProfileIncomplete | pages/Dashboard.tsx:23 | the prompt condition: no avatar or an empty one, no bio or a blank one, or the placeholder name |
| Dashboard.NewUserIncomplete | pages/Dashboard.tsx:23 | a user just created by the assessment is always prompted to complete the profile |
| Dashboard.CompletedProfile | pages/Dashboard.tsx:23 | a non-blank bio, a new name and a non-empty avatar remove the prompt |
| Home.Flatten | pages/Home.tsx:11 | every post of every user is in the flattened list and nothing else; its length is the total post count |
| Home.FlattenAppend | pages/Home.tsx:11 | flattening distributes over concatenation of user lists, multiplicities included |
| Home.FlattenSnoc | pages/Home.tsx:11 | appending a user adds exactly that user's posts to the flattened multiset, so each post occurs as often as it sits in the users' lists |
| Home.Insert | pages/Home.tsx:12 | insertion adds the post to the multiset of posts |
| Home.InsertKeepsNewestFirst | pages/Home.tsx:12 | inserting into a newest-first list keeps it newest first |
| Home.SortNewestFirst | pages/Home.tsx:12 | the sort is a permutation in newest-first order |
| Home.SortKeepsSorted | pages/Home.tsx:12 | a list already newest first comes back unchanged |
| Home.AllPosts | pages/Home.tsx:9-13 | the global feed is newest first and is a permutation of the flattened posts of all users |
| Home.Author | pages/Home.tsx:26 | a post row shows a listed user with the author id, and none exactly when the author is unlisted |
| Home.VisiblePosts | pages/Home.tsx:25-27 | the rows rendered are exactly the feed's posts whose author is found, each with its multiplicity, in feed order |
| Home.AuthoredPostsAllVisible | pages/Home.tsx:25-27 | when every post sits with its author, no row is dropped |
| Home.LikeButtonFlips | pages/Home.tsx:29-30 | pressing the heart flips the viewer's like; the count rises by one on a like and falls by one on an unlike of a single like |
| Home.LikeEnabled | pages/Home.tsx:65 | the heart is disabled exactly without a viewer |
| Feed.ImageArgument | pages/Feed.tsx:26 | an empty picked image is passed as no image |
| Feed.CanPost | pages/Feed.tsx:81 | the post button is enabled, and a submit goes through, exactly when the text is not blank and somebody is signed in |
| Feed.Submit | pages/Feed.tsx:23-32 | blank text or no user changes nothing; otherwise the untrimmed text and the image go to `addPost` and the composer is cleared |
| Feed.OwnPostsAreViewersPosts | pages/Feed.tsx:91-94 | in a well-formed state the own feed holds exactly the global feed's posts written by the viewer |
| Feed.SubmitShowsPostFirst | pages/Feed.tsx:23-32 | after a post the new post heads the own feed with the untrimmed text, no like and the viewer as author, and the older posts follow |
| Feed.BlankTextNeverPosted | pages/Feed.tsx:25 | blank text never reaches the state, although `addPost` itself would take it |
| Onboarding.LoadQuestions | pages/Onboarding.tsx:21-38 | a fetch resets the answers and the index; success replaces the questions; failure keeps them and shows the error |
| Onboarding.Answer | pages/Onboarding.tsx:40-47 | the answer is recorded for the current index, overwriting an earlier one, and the index advances unless on the last question; nothing happens while the options are hidden |
| Onboarding.LoadKeepsValid | pages/Onboarding.tsx:21-38 | fetching keeps the index within the questions and answers on real questions only |
| Onboarding.AnswerKeepsValid | pages/Onboarding.tsx:40-47 | answering keeps the index within the questions and answers on real questions only |
| Onboarding.CountedMeansAnswered | pages/Onboarding.tsx:50 | the count check means every question is answered |
| Onboarding.AnsweringInTurnCompletes | pages/Onboarding.tsx:130 | answering the last question after all earlier ones passes the count check and shows the submit button |
| Onboarding.SubmitShown | pages/Onboarding.tsx:130 | the submit button shows exactly when the page is idle, has questions and has an answer for each |
| Onboarding.Submit | pages/Onboarding.tsx:49-66 | an incomplete count changes nothing; a result creates the user through the container; a failure shows the error and creates nobody |
| Onboarding.SubmitCreatesOneUser | pages/Onboarding.tsx:57-58 | a successful submit adds exactly one user, who becomes current and carries the result |
| Chatbot.ConcatAppend | pages/Chatbot.tsx:41-42 | the text of a split stream is the text of its parts |
| Chatbot.ApplyChunksShowsWholeReply | pages/Chatbot.tsx:39-48 | the streaming loop leaves one bot message holding the whole reply after the earlier messages |
| Chatbot.Settle | pages/Chatbot.tsx:37-52 | the bot's part is the whole streamed reply, or the error text, or the part streamed before a failure followed by the error text |
| Chatbot.CanSend | pages/Chatbot.tsx:30 | a send goes through exactly when the input is not blank, no reply is pending and a session exists |
| Chatbot.Send | pages/Chatbot.tsx:29-55 | nothing happens unless the input is not blank, no reply is pending and a session exists; otherwise the untrimmed input becomes the user's message, the bot's part follows, the input is cleared and loading ends |
| Chatbot.SendKeepsTurns | pages/Chatbot.tsx:29-55 | a send keeps the earlier messages, adds the user's message after them and ends with a bot message |
| Chatbot.ChunkingIrrelevant | pages/Chatbot.tsx:41-48 | two streams with the same text in different chunks leave the same conversation |
| Therapists.FilterByCity | pages/Therapists.tsx:11-15 | exactly the therapists whose lowered city contains the lowered term, each with its multiplicity, in order |
| Therapists.EmptyTermKeepsAll | pages/Therapists.tsx:9-15 | the initial empty term lists everybody in order |
| Therapists.CaseOfTermIrrelevant | pages/Therapists.tsx:13 | two terms that differ only by ASCII case changes, in any mix, list the same therapists |
| Therapists.NarrowingTermNarrowsList | pages/Therapists.tsx:11-15 | typing more of the term never brings a therapist back |
| Therapists.NoResultsIffNoCityMatches | pages/Therapists.tsx:36-58 | the no-results message appears exactly when no city of the directory (the seed therapists) contains the term |

## Left out

- The analysis service (`services/geminiService.ts`) is outside the model. Question fetching, assessment analysis and the chat reply are parameters: the outcome of the call, or its failure.
- `components/Navbar.tsx` and `pages/Profile.tsx` are not part of this model. They hold navigation, and the form that calls `updateProfile` and `updateAvatar`. Those handlers are modelled.
- Routing, `navigate`, the DOM, scrolling and file reading (`FileReader`) are not modelled. A picked image is its data URL string.
- Translations and the language switch are not modelled, except for the language tags and `Localized.Get`. Error and placeholder texts are parameters.
- `new Date().toISOString()` is modelled as the clock reading in milliseconds. Both clock reads in `addPost` are modelled as the same reading. The seed timestamps are the load time minus 2, 5, 28 and 10 hours, in milliseconds.
- The onboarding progress percentage, the 300 ms `setTimeout` before the index advances, and the `alert` on an incomplete submit are not modelled. The advance happens at once. The refused submit changes nothing.
- React scheduling is not modelled: the interleaving of asynchronous updates and stale closures. Each handler and each settled asynchronous call is one transition.
- Chatbot.CanSend and Onboarding.SubmitShown: because each asynchronous call settles within one transition, `loading` and `submitting` are never left true between transitions, so the clauses that refuse input while a call is in flight never fire in a run of the model.
- A chunk whose `text` is undefined is not modelled. JavaScript would append the word "undefined". Chunks are strings.
- `toLowerCase` is modelled for ASCII letters only; full Unicode case mapping is not modelled.
- Therapist cards show the specialty in the display language. That rendering is not modelled, beyond `Localized.Get`.
- Home.SortNewestFirst: proved to be a newest-first permutation. It is not proved stable: posts with equal timestamps keep the order of the insertion sort used here. `Array.prototype.sort` is stable too, but equivalence with it is not stated.
- Invariants.StepPreservesWellFormed: requires the side conditions of `Invariants.Admissible`:
  - the clock gives ids not yet in use;
  - an acceptance answers another listed user.
  The code does not check these conditions itself.
- Onboarding.AnsweringInTurnCompletes: states only the final answer of an in-order run. That the submit button stays hidden before the last answer is not stated.
