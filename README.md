# Reddot (Threaddit) — a Dafny model of its core

Reddot is a Reddit-like forum. A Flask server keeps subposts (communities), their
subscriptions and moderator roles, comments and private messages. A React browser
client shows feeds with infinite scrolling, threaded comments, subpost and thread
pages, profiles, the inbox and the sign-up form. This project models the core of
both sides and proves properties of the model:

- **Comment tree** (`comment_tree.dfy`, `comment_tree_facts.dfy`): `create_comment_tree`
  turns flat comment rows into nested `{"comment", "children"}` nodes. The builder is an
  imperative loop over an arena of child lists, appended to in place like the shared node
  objects of the source. It is proved equal to a specification: a reply hangs under the
  latest earlier row carrying its parent id. On top of that the facts file proves:
  - a row is in the tree exactly when its parent chain reaches a root;
  - replies whose parent has not been seen yet are dropped;
  - no row appears twice;
  - siblings keep the input order.
- **Comment hook and widget** (`use_comment.dfy`, `comment_view.dfy`): `useComment`'s
  reply/delete/edit mutations over the local replies list and the post's cached comment
  list, the border colour cycle, and the `Comment` widget's select, reply and edit flows.
- **Full post page** (`full_post.dfy`): the page's render branches and appending a new
  top-level comment to the cached list.
- **Feeds** (`infinite_posts.dfy`, `saved_post.dfy`): the infinite-scroll pager. It
  requests pages of 20 and stops after the first short page, and the pages together are
  proved to tile the feed. The `sortBy`/`duration` search parameters and their labels
  are modelled too. So are the saved-posts mock server (38 items, `parseInt` fallbacks)
  and its mock search parameters.
- **Navigation** (`navbar.dfy`, `sidebar.dfy`): the community search box and dropdown,
  the mobile page select, and the sidebar's three sections with their padded counts.
- **Messages** (`messages.dfy`, `inbox.dfy`): `get_inbox` on the server (the user's
  messages, newest first) and the inbox page's previews, highlight and title.
- **Subposts** (`subpost_routes.dfy`, `role_models.dfy`, `subpost_page.dfy`,
  `sub_thread.dfy`):
  - the server routes: listings with limit/offset, the ILIKE search, lookup by name,
    unsubscribe, the name rule for new subposts, and adding and removing moderators over
    an abstract `user_roles` table;
  - the client pages' Join/Leave toggle over the cached page data, the options select
    and the titles.
- **Profile and sign-up** (`profile_page.dfy`, `signup_page.dfy`): the profile's action
  state machine with account deletion, and the sign-up page's hand-written mutation hook
  (idle → loading → success or error, with reset), its mock outcome rule, its field errors
  and its redirects.

Shared helpers: `wrappers.dfy` (`Option`), `js_values.dfy` (JavaScript truthiness,
strict `===` on ids that may be numbers or strings, `||` defaults, ASCII case),
`numbers.dfy` (decimal printing and JavaScript `parseInt`), `sorting.dfy` (descending
sort as a permutation).

How the environment enters the model:
- Network and database outcomes are parameters: an `ok` flag, or the optional server
  answer.
- The clock is a `now` parameter.
- Python's `\w` is an `isWord` parameter.
- React state updates and effects are methods of a class per page or widget. Each method
  states the whole new state of what it may change.

## Model

| member | source | states |
|---|---|---|
| CommentTree.CreateCommentTree | server/app/comments/utils.py:8-22 | a falsy first row gives `[]`; otherwise the result is the forest the specification builds from the rows |
| CommentTree.LinkRows | server/app/comments/utils.py:11-21 | the loop's root list is exactly the rows without a parent, in input order, and each node's children list is exactly the later rows attached to it |
| CommentTree.LastIndexBefore | server/app/comments/utils.py:16 | the dictionary entry for an id after n rows is the latest of them with that id, and none when no row has it |
| CommentTree.ParentOf | server/app/comments/utils.py:18-21 | a reply is attached only to a row up to itself that carries its parent id |
| CommentTree.ParentOfLatest | server/app/comments/utils.py:16-21 | that row is the latest one up to the reply carrying the id; when no such row exists the reply is attached nowhere |
| CommentTree.RootIndicesExact | server/app/comments/utils.py:18-19 | the roots are exactly the rows without a parent, increasing |
| CommentTree.ChildIndicesExact | server/app/comments/utils.py:20-21 | a node's children are exactly the rows attached to it, increasing |
| CommentTree.NoChildrenYet | server/app/comments/utils.py:14-21 | a row has no children among the rows before it, so a new row starts with an empty list |
| CommentTree.SpecArena | server/app/comments/utils.py:14-21 | there is one children list per row and every list names only rows |
| CommentTree.DictStep | server/app/comments/utils.py:16 | storing a row under its id keeps the dictionary equal to "latest row with that id" |
| CommentTree.ArenaStep | server/app/comments/utils.py:18-21 | attaching row n to its parent's list keeps every children list equal to its specification over the first n+1 rows |
| CommentTree.ForestRoots | server/app/comments/utils.py:18-22 | the returned forest has one node per root row, in order, none of them with a parent |
| CommentTreeFacts.KidsExact | server/app/comments/utils.py:18-21 | the replies of a row are exactly the later rows attached to it, in increasing order |
| CommentTreeFacts.KidsInArena | server/app/comments/utils.py:14-21 | the children list the loop builds for a row, read past the row itself, is exactly its replies |
| CommentTreeFacts.ForestIsRows | server/app/comments/utils.py:14-22 | reading the forest depth-first gives exactly the rows of the nested row lists, comment for comment |
| CommentTreeFacts.SubtreeMembers | server/app/comments/utils.py:20-21 | the rows under a node are exactly that node and its descendants |
| CommentTreeFacts.ForestHoldsReachable | server/app/comments/utils.py:18-21 | a row is in the tree iff its parent chain reaches a root; a reply whose parent was not seen before it, or that is its own parent, is not in the tree |
| CommentTreeFacts.InInputOrder | server/app/comments/utils.py:18-21 | roots and every node's replies appear in input order |
| CommentTreeFacts.ForestRowsDistinct | server/app/comments/utils.py:14-22 | no row appears twice in the tree, so the tree holds at most as many comments as rows |
| CommentTreeFacts.SelfParentUnreachable | server/app/comments/utils.py:16-21 | a row that names itself as parent never reaches a root; a reachable node's replies are exactly the rows attached to it |
| UseComment.WithoutChild | browser/src/hooks/useComment.tsx:136-138 | the filtered replies are exactly those whose id is not `===` the deleted id, no more of them than before |
| UseComment.RootsWithout | browser/src/hooks/useComment.tsx:141-154 | without cached data nothing changes; otherwise only the comment list is filtered, the post info stays |
| UseComment.MergeEdit | browser/src/hooks/useComment.tsx:172-180 | an edit sets the content and the edited flag and keeps every other field of the comment |
| UseComment.DeleteTarget | browser/src/hooks/useComment.tsx:132 | the DELETE goes to the child id when it is truthy, else to the comment's own id |
| UseComment.ChildrenAfterDelete | browser/src/hooks/useComment.tsx:134-138 | a truthy child id filters the local replies; a falsy one leaves them |
| UseComment.RootsAfterDelete | browser/src/hooks/useComment.tsx:139-155 | a falsy child id filters the post's cached comment list by the comment's own id; a truthy one leaves it |
| UseComment.WithoutIdempotent | browser/src/hooks/useComment.tsx:136-138 | filtering twice by the same id is filtering once |
| UseComment.AppendThenDelete | browser/src/hooks/useComment.tsx:118-138 | deleting a reply that was just appended (with a fresh id) restores the replies list |
| UseComment.RootsWithoutIdempotent | browser/src/hooks/useComment.tsx:141-154 | removing a top-level comment twice is removing it once |
| UseComment.MergeEditIdempotent | browser/src/hooks/useComment.tsx:172-180 | applying the same edit twice is applying it once |
| UseComment.CommentStore.constructor | browser/src/hooks/useComment.tsx:91-97 | the replies start as the given children or `[]`, the comment as given |
| UseComment.CommentStore.AddComment | browser/src/hooks/useComment.tsx:100-120 | empty text sends nothing; otherwise the reply request names the post, the text and this comment as parent, and the server's new comment is appended |
| UseComment.CommentStore.DeleteComment | browser/src/hooks/useComment.tsx:123-160 | the DELETE target, then on success the reply filter or the cache filter; on failure nothing changes |
| UseComment.CommentStore.UpdateComment | browser/src/hooks/useComment.tsx:163-182 | empty text sends nothing; otherwise the PATCH carries the text, and on success the comment becomes the merged edit |
| UseComment.ColorIndex | browser/src/hooks/useComment.tsx:185-189 | the index read is always a valid index into the six colours |
| UseComment.CounterAfter | browser/src/hooks/useComment.tsx:185-189 | the module counter stays within 0..6 and is positive after any call |
| UseComment.ColorCycle | browser/src/hooks/useComment.tsx:185-189 | the n-th call returns colour n mod 6, so the colours cycle in order |
| UseComment.ColorCounter.constructor | browser/src/hooks/useComment.tsx:74 | the counter starts at 0 |
| UseComment.ColorCounter.Next | browser/src/hooks/useComment.tsx:185-190 | returns one of the six colours, the one the wrapped counter points at, and advances the counter |
| CommentView.FooterControls | browser/src/components/Comment.tsx:209-223 | the options menu appears iff the viewer is signed in and is the author, a moderator of the thread or an admin; it offers edit iff the viewer is the author, and always share and delete |
| CommentView.ModeratorCannotEdit | browser/src/components/Comment.tsx:209-223 | a moderator or admin who is not the author may delete but not edit |
| CommentView.InitialContent | browser/src/components/Comment.tsx:302 | the editor starts with the default value, or empty |
| CommentView.ToggleLabel | browser/src/components/Comment.tsx:248 | the toggle reads "Hide" iff the replies are expanded |
| CommentView.ToggleAfterReplyAndDelete | browser/src/components/Comment.tsx:244 | an added reply makes the Hide/Show toggle visible; after a delete by id it stays visible iff a reply with another id is left |
| CommentView.CommentWidget.constructor | browser/src/components/Comment.tsx:120-122 | not replying, not editing, replies expanded |
| CommentView.CommentWidget.HandleSelect | browser/src/components/Comment.tsx:144-162 | "delete" goes through the parent's delete when there is one, else this comment's own: on success the parent's replies (or this comment's replies and the cached root list) are filtered, and every other store and cache keeps its contents; "edit" opens the editor; anything else changes nothing |
| CommentView.CommentWidget.ToggleReply | browser/src/components/Comment.tsx:232-238 | the reply box toggles only for a signed-in viewer |
| CommentView.CommentWidget.ToggleExpand | browser/src/components/Comment.tsx:245 | the replies' expansion flips |
| CommentView.CommentWidget.SubmitReply | browser/src/components/Comment.tsx:261-268 | signed out nothing happens; signed in the reply is sent as AddComment sends it, the box closes and the replies expand |
| CommentView.CommentWidget.CancelReply | browser/src/components/Comment.tsx:269-272 | the reply box closes |
| CommentView.CommentWidget.SubmitEdit | browser/src/components/Comment.tsx:174-178 | signed in the edit is sent as UpdateComment sends it and the editor closes |
| CommentView.CommentWidget.CancelEdit | browser/src/components/Comment.tsx:179-182 | the editor closes |
| CommentView.CommentWidget.ChildListClass | browser/src/components/Comment.tsx:279-280 | collapsed: no list and no colour drawn; expanded with replies: the next border colour is drawn |
| CommentView.TopLevelDeleteKeepsRootList | browser/src/components/Comment.tsx:144-151 | a top-level comment deletes itself through a truthy child id, so the post's cached comment list is left as it was |
| CommentView.ReplyDeleteFiltersParent | browser/src/components/Comment.tsx:144-151 | deleting a reply removes exactly that reply from its parent's list |
| FullPost.AppendRoot | browser/src/pages/Post/FullPost.tsx:63-72 | with cached data the new comment is appended to the comment list and the post is kept; without data the cache stays empty |
| FullPost.AppendRootThenDelete | browser/src/pages/Post/FullPost.tsx:63-72 | appending a fresh top-level comment and removing it by id restores the cache |
| FullPost.PageView | browser/src/pages/Post/FullPost.tsx:83-149 | loading first, then the error text without data, else the post; the comment box shows iff comment mode, signed in and a user; the list shows iff there are comments |
| FullPost.FullPostPage.constructor | browser/src/pages/Post/FullPost.tsx:34 | comment mode starts off |
| FullPost.FullPostPage.SetCommentMode | browser/src/pages/Post/FullPost.tsx:110 | the post's button sets comment mode |
| FullPost.FullPostPage.NewComment | browser/src/pages/Post/FullPost.tsx:51-79 | posts the content; on success the comment is appended to the cache and the box closes, on failure nothing changes |
| FullPost.FullPostPage.Cancel | browser/src/pages/Post/FullPost.tsx:122 | cancel closes the box |
| InfinitePosts.Get | browser/src/components/InfinitePosts.tsx:46-47 | a search parameter is present iff its key is |
| InfinitePosts.SortBy | browser/src/components/InfinitePosts.tsx:46 | the sort is the parameter when non-empty, else "top" |
| InfinitePosts.Duration | browser/src/components/InfinitePosts.tsx:47 | the duration is the parameter when non-empty, else "alltime" |
| InfinitePosts.PageRequest | browser/src/components/InfinitePosts.tsx:57-59 | page k asks for 20 posts at offset 20·k with the current sort and duration |
| InfinitePosts.NextPageParam | browser/src/components/InfinitePosts.tsx:64-67 | there is a next page iff the last page is full, and it is the number of pages loaded |
| InfinitePosts.ScrollFetch | browser/src/components/InfinitePosts.tsx:78-86 | a scroll that fetches finds no fetch running and a full last page, and the next twenty posts extend the loaded front of the feed; with no next page no scroll fetches and the whole feed is loaded |
| InfinitePosts.FirstPageStays | browser/src/components/InfinitePosts.tsx:57-67 | later fetches keep the first page as the server sent it |
| InfinitePosts.NoPostsIffEmptyFeed | browser/src/components/InfinitePosts.tsx:117 | "no posts found" shows iff the first fetch is done and the feed is empty; never before any data |
| InfinitePosts.Window | browser/src/components/InfinitePosts.tsx:58-61 | a server answer to limit/offset holds min(limit, what is left) posts |
| InfinitePosts.PagesTileFeed | browser/src/components/InfinitePosts.tsx:57-69 | the pages loaded so far are consecutive windows of the feed, and once no next page is offered they concatenate to the whole feed |
| InfinitePosts.FirstPageTiles | browser/src/components/InfinitePosts.tsx:57-60 | the first page is the feed's first window and tiles it |
| InfinitePosts.TileStep | browser/src/components/InfinitePosts.tsx:64-67 | fetching the next page after a full one extends the tiling |
| InfinitePosts.LastPageShort | browser/src/components/InfinitePosts.tsx:64-67 | when the last page is short the pages hold the whole feed, no post lost or repeated |
| InfinitePosts.LastPageFull | browser/src/components/InfinitePosts.tsx:64-67 | a full last page means the feed has at least 20 posts per page loaded |
| InfinitePosts.ConcatLength | browser/src/components/InfinitePosts.tsx:58 | full pages followed by a last page hold 20 per full page plus the last page |
| InfinitePosts.SearchParams.constructor | browser/src/components/InfinitePosts.tsx:44 | the parameters start as the URL's |
| InfinitePosts.SearchParams.HandleDurationChange | browser/src/components/InfinitePosts.tsx:96-99 | only "duration" is set; the sort is unchanged |
| InfinitePosts.SearchParams.HandleSortByChange | browser/src/components/InfinitePosts.tsx:101-104 | only "sortBy" is set; the duration is unchanged |
| InfinitePosts.SearchParams.HandleSelectChange | browser/src/components/InfinitePosts.tsx:107-113 | the mobile selects set the parameter their kind names |
| InfinitePosts.Capitalize | browser/src/components/InfinitePosts.tsx:181 | the first character upper-cased, the rest unchanged |
| InfinitePosts.ReplaceAbsent | browser/src/components/InfinitePosts.tsx:167 | `replace` leaves a string without the pattern unchanged |
| InfinitePosts.ReplaceFirstAt | browser/src/components/InfinitePosts.tsx:167 | `replace` rewrites only the first occurrence |
| InfinitePosts.DurationLabels | browser/src/components/InfinitePosts.tsx:160-167 | the four durations read Day, Week, Month and All Time |
| InfinitePosts.DurationLabelPlain | browser/src/components/InfinitePosts.tsx:167 | a value without "time" after its first letter is labelled by capitalising it |
| InfinitePosts.DurationLabelSpaced | browser/src/components/InfinitePosts.tsx:167 | in a value with "time" after its first letter, the first such "time" alone becomes " Time" in the capitalised value |
| SavedPost.PageCount | browser/src/pages/save/SavedPost.tsx:20-25 | a page holds at most `limit` posts and none at or past index 38 |
| SavedPost.MockPage | browser/src/pages/save/SavedPost.tsx:20-36 | a page holds PageCount posts |
| SavedPost.MockPageAt | browser/src/pages/save/SavedPost.tsx:20-36 | the k-th post of a page is the mock item for index offset+k |
| SavedPost.MockPagesJoin | browser/src/pages/save/SavedPost.tsx:20-36 | two pages that fit in the list, the second starting where the first ends, together are the page of both lengths |
| SavedPost.MockGet | browser/src/pages/save/SavedPost.tsx:9-39 | the answer is the page for the parsed offset (default 0) and limit (default 20) |
| SavedPost.CollectPage | browser/src/pages/save/SavedPost.tsx:20-36 | the loop with its break at index 38 builds exactly that page |
| SavedPost.ExitCount | browser/src/pages/save/SavedPost.tsx:23-25 | the loop stops after exactly PageCount iterations |
| SavedPost.PageShape | browser/src/pages/save/SavedPost.tsx:23-30 | a page holds max(0, min(limit, 38-offset)) posts with consecutive indices |
| SavedPost.ZeroLimitIsDefault | browser/src/pages/save/SavedPost.tsx:16-17 | a limit of "0" is falsy and falls back to 20; a missing offset is 0 |
| SavedPost.PageParamsRoundTrip | browser/src/pages/save/SavedPost.tsx:15-17 | the offset and limit the pager prints are parsed back unchanged |
| SavedPost.SavedFeedPages | browser/src/pages/save/SavedPost.tsx:123-133 | the saved feed loads a page of 20 and then 18, offers a second page and no third, and the two together are all 38 items |
| SavedPost.SortBy | browser/src/pages/save/SavedPost.tsx:118 | the sort is the parameter when non-empty, else "new" |
| SavedPost.FilterChangeRefetch | browser/src/pages/save/SavedPost.tsx:121-142 | a new non-empty sort or duration moves the feed to a new cache entry, and the effect refetches iff outside the saved page; the same value changes neither; on mount the effect refetches iff outside the saved page |
| SavedPost.Merge | browser/src/pages/save/SavedPost.tsx:51 | spreading keeps every key of both, the new entries winning |
| SavedPost.MergeIdempotent | browser/src/pages/save/SavedPost.tsx:50-53 | committing the same entries twice is committing them once |
| SavedPost.MockSearchParams.constructor | browser/src/pages/save/SavedPost.tsx:45 | the parameters start as sortBy "new" and duration "alltime" |
| SavedPost.MockSearchParams.Get | browser/src/pages/save/SavedPost.tsx:58 | reading a key gives its value iff it is present |
| SavedPost.MockSearchParams.Set | browser/src/pages/save/SavedPost.tsx:59 | setting changes only the pending map |
| SavedPost.MockSearchParams.Commit | browser/src/pages/save/SavedPost.tsx:50-62 | committing merges the pending map into the state and rebuilds the pending map from it |
| Numbers.IntToString | browser/src/pages/save/SavedPost.tsx:29-30 | a printed number is non-empty and starts with '-' iff it is negative (for the safe integers JavaScript prints in plain decimal) |
| Numbers.NatToString | browser/src/pages/save/SavedPost.tsx:29-30 | a printed natural is all digits with no leading zero |
| Numbers.ParseIntOr | browser/src/pages/save/SavedPost.tsx:16-17 | the parsed value when it parses and is non-zero, else the fallback |
| Numbers.ParseIntOfIntToString | browser/src/pages/save/SavedPost.tsx:15-17 | parsing a printed integer gives it back, for every unbounded integer; in JavaScript this is the round trip of the safe integers only |
| JsValues.OrDefault | browser/src/components/InfinitePosts.tsx:46-47 | `a \|\| b`: a when present and non-empty, else b |
| JsValues.PresentIsTruthy | browser/src/pages/Post/FullPost.tsx:46 | `!!s` on a route parameter is the string's truthiness, and it decides which side `s \|\| b` gives |
| JsValues.Lower | server/app/subpost/routes.py:59 | lower-casing keeps the length and lower-cases each ASCII letter |
| JsValues.UpperChar | browser/src/components/InfinitePosts.tsx:181 | ASCII only: a lower-case ASCII letter becomes its capital, every other character is left as it is |
| JsValues.LowerChar | server/app/subpost/routes.py:59 | lower-casing turns an ASCII capital into its small letter and leaves every other character |
| Sorting.SortDesc | server/app/messages/models.py:29 | the result is sorted newest first and is a permutation of the input |
| Sorting.Insert | server/app/messages/models.py:29 | inserting into a newest-first list keeps it sorted and adds exactly that message |
| Navbar.StripWhitespace | browser/src/components/Navbar.tsx:92 | the stripped text has no whitespace and is empty iff the text was all whitespace |
| Navbar.SearchEnabledIff | browser/src/components/Navbar.tsx:92 | the search query runs iff the text has a non-whitespace character |
| Navbar.ShownResults | browser/src/components/Navbar.tsx:128-130 | the dropdown shows iff there is data and text, and then the first five results in order |
| Navbar.Names | browser/src/components/Navbar.tsx:99 | the names of the results, in order; none without data |
| Navbar.CreateOfferedIff | browser/src/components/Navbar.tsx:148 | "Create subread" is offered iff the dropdown shows, this is not the post form, and no result is named `t/<text>` |
| Navbar.ReadSearch.constructor | browser/src/components/Navbar.tsx:79 | the search text starts empty |
| Navbar.ReadSearch.Type | browser/src/components/Navbar.tsx:121 | typing sets the text |
| Navbar.ReadSearch.ClickOutside | browser/src/components/Navbar.tsx:95-97 | a click outside clears the text, which hides the dropdown |
| Navbar.ReadSearch.PickResult | browser/src/components/Navbar.tsx:102-105 | the post form gets the id and name, elsewhere the name; the text clears |
| Navbar.ReadSearch.CreateRead | browser/src/components/Navbar.tsx:107-112 | the create page is opened with the typed name and the text clears |
| Navbar.HomeLink | browser/src/components/Navbar.tsx:196 | Home links to /home when signed in, else /login |
| Navbar.MobileOptions | browser/src/components/Navbar.tsx:273-292 | logout is offered iff signed in; /popular and /all always |
| Navbar.MobileSelect | browser/src/components/Navbar.tsx:174-183 | "logout" logs out and then navigates to /all; any other value navigates to itself |
| Navbar.SignedOutSelectNavigates | browser/src/components/Navbar.tsx:174-183 | every option a signed-out visitor can pick is a path and is navigated to |
| Navbar.SignedInSelectEndsOnPath | browser/src/components/Navbar.tsx:174-183 | every option a signed-in user can pick ends on a path |
| Sidebar.PadCount | browser/src/components/NexPostSidebar.tsx:61 | counts above 9 print as they are; others get a leading "0" |
| Sidebar.PadCountTwoDigits | browser/src/components/NexPostSidebar.tsx:59-61 | counts 0..99 always show two digits that parse back to the count |
| Sidebar.Key | browser/src/components/NexPostSidebar.tsx:42 | the key is the id, or the name when the id is empty |
| Sidebar.Section | browser/src/components/NexPostSidebar.tsx:34-66 | a section lists the first ten threads in order, each linking to `/<name>` with its padded count; no list draws nothing |
| Sidebar.SidebarView | browser/src/components/NexPostSidebar.tsx:87-139 | loading, then failure without data, else the subscribed section (only when non-empty, and then the section of the subscribed list), top and popular |
| Sidebar.SectionsBounded | browser/src/components/NexPostSidebar.tsx:38 | no section shows more than ten threads, and each of the first ten top threads is shown |
| Messages.NewMessage | server/app/messages/models.py:7-12 | a new message is unseen unless told otherwise and stamped with the current time |
| Messages.AsDictRoundTrip | server/app/messages/models.py:14-22 | `as_dict` reports every field, `id` as `message_id`, so the message comes back from it |
| Messages.Involving | server/app/messages/models.py:28 | exactly the messages the user sent or received, each as often as in the table |
| Messages.InboxEntries | server/app/messages/models.py:29-32 | each inbox entry is the dictionary of the sorted row at the same place |
| Messages.InboxSpec | server/app/messages/models.py:25-32 | the inbox holds only the user's messages, newest first, each of them exactly once per row |
| Messages.InboxMembership | server/app/messages/models.py:27-32 | a message is in the inbox iff it is in the table and the user sent or received it |
| Messages.InboxSize | server/app/messages/models.py:27-32 | the inbox has as many entries as the user has messages |
| Inbox.Preview | browser/src/pages/inbox/inbox.tsx:53-57 | a preview is the whole content up to 15 characters, else the first 15 and "..." |
| Inbox.PreviewWholeIff | browser/src/pages/inbox/inbox.tsx:55-56 | the preview equals the content iff it has at most 15 characters or is 18 ending in "..." |
| Inbox.Prefix | browser/src/pages/inbox/inbox.tsx:54 | "You: " when the user wrote last, else the receiver's name |
| Inbox.UnreadMarker | browser/src/pages/inbox/inbox.tsx:49-54 | the mail marker never shows on an entry the user wrote last or on a seen one; a marked line names the receiver |
| Inbox.Title | browser/src/pages/inbox/inbox.tsx:21-27 | `Inbox \| <name>` with a chat open, else "Threaddit \| Inbox" |
| Inbox.InboxPage.constructor | browser/src/pages/inbox/inbox.tsx:14 | no chat open |
| Inbox.InboxPage.Open | browser/src/pages/inbox/inbox.tsx:44 | clicking a message opens the sender's chat, sets the title, highlights it and hides the mobile list |
| Inbox.InboxPage.Close | browser/src/pages/inbox/inbox.tsx:94-97 | closing the chat restores the title and the mobile list |
| Inbox.InboxPage.Unmount | browser/src/pages/inbox/inbox.tsx:28-30 | leaving sets the title to "Threaddit" |
| Inbox.HighlightAfterOpen | browser/src/pages/inbox/inbox.tsx:41 | an entry is highlighted iff its sender has the open chat's name; with no chat none is |
| RoleModels.NewUserRole | server/app/models.py:24-27 | the constructor stores user, subpost and role as given |
| RoleModels.AsDictRoundTrip | server/app/models.py:38-44 | `as_dict` reports the four fields unchanged |
| RoleModels.AddModeratorRows | server/app/models.py:29-36 | afterwards the moderator row exists; the table is unchanged if it was there, else exactly one row is appended |
| RoleModels.AddModeratorIdempotent | server/app/models.py:29-36 | adding the same moderator twice is adding once |
| RoleModels.AddModeratorKeepsUnique | server/app/models.py:29-36 | adding a moderator never creates a second moderator row for a user and subpost |
| RoleModels.RoleTable.AddModerator | server/app/models.py:29-36 | 400 "Mod already exists" with nothing changed, or the row inserted under the next key |
| SubpostRoutes.WordRun | server/app/subpost/routes.py:12 | the longest prefix of word characters |
| SubpostRoutes.NameMatchesIff | server/app/subpost/routes.py:12 | `^\w{3,}$` accepts exactly three or more word characters, optionally followed by one final newline |
| SubpostRoutes.ListArgs | server/app/subpost/routes.py:17-18 | limit defaults to 10 and offset to 0 |
| SubpostRoutes.LimitOffset | server/app/subpost/routes.py:28-32 | at most `limit` rows, the ones from `offset` on, in order |
| SubpostRoutes.Present | server/app/subpost/routes.py:28 | exactly the rows whose count is not NULL, each as often as before |
| SubpostRoutes.OfUser | server/app/subpost/routes.py:24 | exactly the subscriptions of the signed-in user |
| SubpostRoutes.SubscribedListing | server/app/subpost/routes.py:21-25 | at most `limit` subposts, each one the user is subscribed to: the window of the user's subscriptions in table order, one subpost id each |
| SubpostRoutes.SubscribedListingComplete | server/app/subpost/routes.py:21-25 | with a window as large as the table, the listing names exactly the subposts the user is subscribed to |
| SubpostRoutes.WindowSorted | server/app/subpost/routes.py:29-31 | a window of a sorted list is sorted |
| SubpostRoutes.AllListingSpec | server/app/subpost/routes.py:26-33 | at most `limit` subposts with a member count, most members first |
| SubpostRoutes.PopularListingSpec | server/app/subpost/routes.py:34-41 | at most `limit` subposts with a post count, most posts first |
| SubpostRoutes.AllListingComplete | server/app/subpost/routes.py:26-33 | with a large enough window the listing is every counted subpost |
| SubpostRoutes.Search | server/app/subpost/routes.py:54-61 | exactly the subposts whose name matches `%<name>%` under ILIKE |
| SubpostRoutes.LikeAnything | server/app/subpost/routes.py:56-57 | an empty search matches every name |
| SubpostRoutes.LikePrefix | server/app/subpost/routes.py:56-59 | `q%` with a literal `q` matches exactly the names starting with `q`, ignoring ASCII case |
| SubpostRoutes.LikeContains | server/app/subpost/routes.py:56-59 | `%q%` with a literal `q` matches exactly the names containing `q`, ignoring ASCII case |
| SubpostRoutes.SearchIsSubstring | server/app/subpost/routes.py:56-59 | for a name without wildcards, a match is a case-insensitive substring |
| SubpostRoutes.FirstInfoNamed | server/app/subpost/routes.py:72 | the first info row with that name, or none when no row has it |
| SubpostRoutes.FirstSubpostNamed | server/app/subpost/routes.py:73 | the first subpost with that name, or none when no subpost has it |
| SubpostRoutes.UnknownNameCrashes | server/app/subpost/routes.py:72-84 | as written, a name with neither row passes the 404 guard and fails on the missing row |
| SubpostRoutes.LookupByName | server/app/subpost/routes.py:70-84 | corrected: never a server error; not found iff either row is missing; otherwise both rows carry `t/<name>` |
| SubpostRoutes.LookupAgrees | server/app/subpost/routes.py:74-84 | wherever the written code does not fail, it answers as the corrected lookup does |
| SubpostRoutes.WithoutSubscription | server/app/subpost/routes.py:99 | exactly the subscriptions other than the user's to that subpost remain |
| SubpostRoutes.WithoutRoles | server/app/subpost/routes.py:161 | exactly the role rows other than that user's in that subpost remain, so no moderator row for them is left |
| SubpostRoutes.WithoutRolesIdempotent | server/app/subpost/routes.py:161 | deleting the roles twice is deleting them once |
| SubpostRoutes.FirstUserNamed | server/app/subpost/routes.py:145 | the first user with that name, or none when no user has it |
| SubpostRoutes.FirstSubpostWithId | server/app/subpost/routes.py:157 | the first subpost with that id, or none |
| SubpostRoutes.SubpostStore.DelSubscription | server/app/subpost/routes.py:94-103 | 400 "Invalid Subscription" when absent, else 200 with the subscription removed; never present afterwards |
| SubpostRoutes.SubpostStore.NewPost | server/app/subpost/routes.py:106-117 | 400 for a missing or invalid name, 500 when the insert fails, else 200 with the creator made moderator; the role table's next key moves only when a row is inserted |
| SubpostRoutes.SubpostStore.NewMod | server/app/subpost/routes.py:141-149 | 400 for an unknown user; otherwise 200 and the moderator added (or already there); the role table's next key moves only when a row is inserted |
| SubpostRoutes.SubpostStore.DeleteMod | server/app/subpost/routes.py:152-164 | 400 without user or subpost; 400 "Cannot Remove Post Creator" for the creator unless the actor is an admin; else 200 and the user's roles there removed |
| SubpostRoutes.DeleteModRemovesOnlyTarget | server/app/subpost/routes.py:161-163 | removal drops the user's moderator role in that subpost and keeps other users' rows and other subposts' rows |
| SubPostPage.WithSubscribed | browser/src/pages/SubPost/SubPost.tsx:63-70 | only `has_subscribed` changes |
| SubPostPage.AfterToggle | browser/src/pages/SubPost/SubPost.tsx:57-73 | without data or on failure the cache stays; on success the flag becomes the opposite of the one clicked |
| SubPostPage.ToggleTwiceRestores | browser/src/pages/SubPost/SubPost.tsx:57-73 | joining and leaving (or leaving and joining) restores the cached data |
| SubPostPage.ToggleFlipsShownFlag | browser/src/pages/SubPost/SubPost.tsx:171 | a click with the shown flag flips it and changes nothing else |
| SubPostPage.CommunityCache.Toggle | browser/src/pages/SubPost/SubPost.tsx:57-73 | without data nothing is sent; DELETE when subscribed, POST otherwise, to `/api/<section>/subscription/<id>`; the cache becomes AfterToggle |
| SubPostPage.SubscriptionUrlInjective | browser/src/pages/SubPost/SubPost.tsx:62-67 | the subpost and thread pages never address the same subscription URL, and a URL names one id |
| SubPostPage.SelectOptions | browser/src/pages/SubPost/SubPost.tsx:179-203 | "more" first, the moderator options when shown, then the mod list |
| SubPostPage.ModOptionsIff | browser/src/pages/SubPost/SubPost.tsx:186-193 | the moderator options show iff the select has exactly two entries more than the mod list, and then they follow "more" |
| SubPostPage.StringIdIsNotMod | browser/src/pages/SubPost/SubPost.tsx:187-189 | a moderator listed by the id as a string does not get the options, since `includes` compares with `===` |
| SubPostPage.SubPostView.constructor | browser/src/pages/SubPost/SubPost.tsx:49-54 | no modal, the select on "more", the title `t/<name>` |
| SubPostPage.SubPostView.HandleChange | browser/src/pages/SubPost/SubPost.tsx:76-110 | without data nothing; "more" nothing; "edit", "manage-mods" and "logo" open their modal; any other value navigates to `/u/<value>`; the select returns to "more" |
| SubPostPage.SubPostView.CloseModal | browser/src/pages/SubPost/SubPost.tsx:215-216 | the modal closes |
| SubPostPage.SubPostView.Unmount | browser/src/pages/SubPost/SubPost.tsx:51-53 | leaving sets the title to "Postdit" and keeps the modal and the select |
| SubPostPage.Title | browser/src/pages/SubPost/SubPost.tsx:50 | `t/<name>`, or `t/undefined` without a name |
| SubPostPage.GuardAndTitle | browser/src/pages/SubPost/SubPost.tsx:43-50 | the query runs iff the title carries a non-empty name; with it off the title is `t/` or `t/undefined`, the same title a subpost named "undefined" gets |
| SubPostPage.ButtonLabel | browser/src/pages/SubPost/SubPost.tsx:166-174 | the button shows iff signed in with data; "Leave" iff subscribed |
| SubPostPage.ButtonFlipsAfterToggle | browser/src/pages/SubPost/SubPost.tsx:166-174 | after a successful click the button offers the opposite action |
| SubPostPage.DescriptionText | browser/src/pages/SubPost/SubPost.tsx:143-151 | the whole description, followed by "..." when longer than 90 |
| SubThreadPage.SubThreadView.constructor | browser/src/pages/Thread/SubThread.tsx:49-54 | the title is `t/<threadName>` |
| SubThreadPage.SubThreadView.Toggle | browser/src/pages/Thread/SubThread.tsx:57-73 | the thread's toggle sends DELETE or POST to `/api/threads/subscription/<id>` and updates the cache as the subpost toggle does |
| SubThreadPage.SubThreadView.Unmount | browser/src/pages/Thread/SubThread.tsx:51-53 | leaving sets the title to "Threaddit" and keeps the cached thread data |
| SubThreadPage.ThreadUrlAndTitle | browser/src/pages/Thread/SubThread.tsx:43-67 | the thread page never addresses a subpost's subscription URL; with the query running the title is `t/<name>`, otherwise `t/` or `t/undefined` |
| ProfilePage.Chosen | browser/src/pages/Userprofile/Profile.tsx:158 | the blank option is no action, any other value its key |
| ProfilePage.Settle | browser/src/pages/Userprofile/Profile.tsx:49-71 | the effect turns "message" and "edit" into their modals and every other key into no action |
| ProfilePage.SettleIdempotent | browser/src/pages/Userprofile/Profile.tsx:49-71 | running the effect again changes nothing |
| ProfilePage.ModalAfterChoice | browser/src/pages/Userprofile/Profile.tsx:49-86 | a modal opens iff "message" or "edit" was chosen; "delete" opens the confirmation instead |
| ProfilePage.Options | browser/src/pages/Userprofile/Profile.tsx:160-171 | delete is offered iff it is one's own profile, message iff it is not |
| ProfilePage.OthersCannotDelete | browser/src/pages/Userprofile/Profile.tsx:162-171 | on another user's profile no option opens the delete confirmation |
| ProfilePage.Profile.constructor | browser/src/pages/Userprofile/Profile.tsx:39-76 | no action, no confirmation, the title `u/<name>` |
| ProfilePage.Profile.Select | browser/src/pages/Userprofile/Profile.tsx:158 | choosing and then the effect: the settled action, and the confirmation opened for "delete" |
| ProfilePage.Profile.RunEffect | browser/src/pages/Userprofile/Profile.tsx:49-71 | the effect settles the action and opens the confirmation for "delete" |
| ProfilePage.Profile.ClickAvatar | browser/src/pages/Userprofile/Profile.tsx:106-114 | the avatar modal opens with the avatar or the default picture; the confirmation and the title stay |
| ProfilePage.Profile.CloseModal | browser/src/pages/Userprofile/Profile.tsx:188 | closing the modal sets no action; the confirmation and the title stay |
| ProfilePage.Profile.CancelDelete | browser/src/pages/Userprofile/Profile.tsx:204 | cancel closes the confirmation; the action and the title stay |
| ProfilePage.Profile.HandleAccountDelete | browser/src/pages/Userprofile/Profile.tsx:78-84 | the confirmation closes, the action and the title stay; the user is logged out iff the DELETE succeeds |
| ProfilePage.Profile.Unmount | browser/src/pages/Userprofile/Profile.tsx:73-76 | leaving sets the title to "Reddot" and keeps the action and the confirmation |
| SignupPage.MockOutcome | browser/src/pages/signup/Signup.tsx:88-105 | "fail" is refused with username and password errors; otherwise three non-empty fields succeed; anything else throws "Internal server error." |
| SignupPage.Messages | browser/src/pages/signup/Signup.tsx:180-184 | an absent message list shows nothing |
| SignupPage.FieldErrors | browser/src/pages/signup/Signup.tsx:137-141 | each field shows its list from the error's validation errors, and nothing when they are absent |
| SignupPage.ErrorKeyCount | browser/src/pages/signup/Signup.tsx:156 | the number of fields with a list, at most 3, and 0 without validation errors |
| SignupPage.RedirectOnRender | browser/src/pages/signup/Signup.tsx:119-122 | an authenticated visitor is sent to /home |
| SignupPage.SignupForm.constructor | browser/src/pages/signup/Signup.tsx:72-75 | empty fields, idle, no error, the title "Reddot \| Signup" |
| SignupPage.SignupForm.EditUsername | browser/src/pages/signup/Signup.tsx:125-128 | typing changes only the field; errors stay visible |
| SignupPage.SignupForm.EditEmail | browser/src/pages/signup/Signup.tsx:125-128 | typing changes only the field; errors stay visible |
| SignupPage.SignupForm.EditPassword | browser/src/pages/signup/Signup.tsx:125-128 | typing changes only the field; errors stay visible |
| SignupPage.SignupForm.TogglePass | browser/src/pages/signup/Signup.tsx:222-226 | the eye icon flips whether the password shows |
| SignupPage.SignupForm.Begin | browser/src/pages/signup/Signup.tsx:51-53 | `mutate` first sets loading and clears the error |
| SignupPage.SignupForm.Resolve | browser/src/pages/signup/Signup.tsx:54-63 | success sets "success" and only then navigates to /home; a throw sets "error" and stores what was thrown; after `Begin` (no error) the form keeps its invariant either way |
| SignupPage.SignupForm.Submit | browser/src/pages/signup/Signup.tsx:131-134 | submitting ends in success (no error, to /home) or error (the mock's error), as the mock rule decides from the fields |
| SignupPage.SignupForm.Reset | browser/src/pages/signup/Signup.tsx:46-49 | reset returns to idle with no error |
| SignupPage.SignupForm.Unmount | browser/src/pages/signup/Signup.tsx:111-116 | leaving sets the title to "Reddot" and keeps the fields, the status and the error |
| SignupPage.SubmitStatus | browser/src/pages/signup/Signup.tsx:51-63 | a submission always ends in success or error |
| SignupPage.SubmitError | browser/src/pages/signup/Signup.tsx:51-63 | an error is left behind iff the submission ends in error |
| SignupPage.FailShowsFieldErrors | browser/src/pages/signup/Signup.tsx:88-99 | signing up as "fail" shows the two messages under username and password, none under email, and alarms the heading |
| SignupPage.FallbackShowsNoFieldErrors | browser/src/pages/signup/Signup.tsx:100-105 | an empty field gives "Internal server error." with no field messages and a calm heading |
| SignupPage.HeadingAlarmedIff | browser/src/pages/signup/Signup.tsx:156 | the heading is red iff some field carries a message list |
| SignupPage.LoadingDisablesSubmit | browser/src/pages/signup/Signup.tsx:237 | in a form keeping its invariant the button is disabled iff loading; while loading no field error and no red heading show; field errors show only in the error status, with the button enabled |
| SignupPage.SuccessAndRedirectAgree | browser/src/pages/signup/Signup.tsx:108 | success happens only with three non-empty fields and a name other than "fail", leaves no error, and lands on /home as the redirect does |

## Left out

- Rendering: markup, class strings, animations, Markdown, images and loaders are not modelled. Only the values they depend on are.
- I/O: HTTP requests, query caching and refetching, timers and delays, `document.title` side effects (the titles are state fields), `console` output, the clipboard and `window.location` are not modelled.
- Network and database results are parameters. The saved-posts mock's `setTimeout(500)` is given no callback and never resolves; the model treats the mock server as if it answered.
- Random karma in the saved-posts mock is left out (`Math.random`).
- `encodeURIComponent` in the create-subread link is left out: the model returns the raw name.
- Python's `\w` is Unicode-aware. It is a parameter of the name rule, and ILIKE case-folding covers ASCII letters only.
- SQL LIKE escapes are not modelled: `%` and `_` in the search text act as wildcards, as they do in the source.
- SubpostRoutes.ListArgs: the route's `type=int` conversion of the query string is not modelled, and the values are naturals. SQL's handling of a negative limit or offset is out of scope.
- SubpostRoutes.SubscribedListing: `Subscription.subpost.as_dict` is not part of this model. The listing returns the subscribed subposts' ids.
- `Subpost.add`, `Subscription.add`, `Subpost.patch` and the models' `as_dict` of subposts are not part of this model. They are used by `new_subscription`, `update_post` and `get_all_post`, which are therefore left out. The insert's result is a parameter of SubpostStore.NewPost.
- `auth_role` and `login_required` decorators are not modelled. The routes are modelled as if the caller passed them; `current_user.has_role("admin")` is a parameter.
- SQL `ORDER BY ... DESC` does not fix the order of equal keys. The listings and the inbox are specified as sorted permutations, not as one order.
- CommentTree.CreateCommentTree: requires a non-empty list whose rows, when the first is present, are all present. The source raises `IndexError` or `AttributeError` otherwise.
- The comment's `as_dict(cur_user)` payload is a string field of the row.
- UseComment.ColorCounter.Next: the colour counter is a module-level variable shared by all widgets. It is one object passed to the widgets, and rendering order is not modelled.
- Inbox.Preview: the length and `slice` of JavaScript count UTF-16 code units, and the model counts characters (Unicode scalar values). Content with characters outside the Basic Multilingual Plane is cut at a different place: fourteen "a" followed by one emoji is 16 units long in the source and gets "...", but is 15 characters in the model and does not.
- SubPostPage.DescriptionText: the 90-character threshold counts characters, not UTF-16 code units, for the same reason; a description with astral characters may get "..." in the source and not in the model.
- JsValues.UpperChar: ASCII only; JavaScript's `toUpperCase` also maps non-ASCII letters (and can lengthen a string, as "ß" becomes "SS"). It is applied only to the duration values, which are ASCII ("day", "week", "month", "alltime").
- Numbers.IntToString: JavaScript numbers are doubles. `String(n)` switches to exponent form from 1e21 on (`"1e+21"`) and is inexact above 2^53. The model prints every integer in plain decimal, so it agrees with the source for safe integers (|n| < 2^53) only.
- Numbers.ParseIntOfIntToString: JavaScript numbers are doubles, so the model holds for safe integers only (`parseInt(String(1e21))` is 1). SubPostPage.SubscriptionUrlInjective and SavedPost.PageParamsRoundTrip rest on it and carry the same bound: they hold for safe-integer ids and offsets.
- The inbox client reads `sender`, `receiver` and `latest_from_user`, which `get_inbox` does not return. The inbox page is modelled on the entries it expects.
- The subpost client calls `/api/posts/subscription/<id>` while the server route is `/api/subposts/subscription/<id>`. The request is modelled as the client sends it.
- The sign-up form's HTML constraints (`required`, `minLength`, `maxLength`, the email input type) are enforced by the browser before submission. They are not modelled: the mock rule sees whatever the fields hold.
- The Login page, the layouts, the app router and the build configuration are not part of this model.

## Findings

| source | as written | input that shows it | evidently intended | confidence | as-written member | corrected member |
|---|---|---|---|---|---|---|
| server/app/subpost/routes.py:74 | the 404 guard is `not post_info and subpost`, so a name with neither row falls through to `post_info.as_dict()` on `None` | `GET /api/subposts/nosuch` with no subpost named `t/nosuch` | answer 404 "Post not found" whenever either row is missing | not executed | SubpostRoutes.UnknownNameCrashes | SubpostRoutes.LookupByName |
