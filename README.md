# Topic page question list — Dafny model

This project models the state of the topic page of the TopicQnA web client
(`src/pages/TopicDetail.jsx`). The page shows the questions of one study topic. Each
question is a record `{id, question_text, answer_text, revision_count}`. At most one
question's answer is expanded.

The page changes its question list in four ways, each after a request to the server has
finished:

- **load**: the list fetched for the topic replaces the shown list;
- **submit**: after a new question was created, the list is loaded again;
- **revise**: every question with the revised id gets one more revision;
- **delete**: after the user confirms, every question with the deleted id is dropped.

A click on a question's header opens that question, or closes it when it is already open.

The model has two modules.

- `QuestionList` (`questions.dfy`) holds the record type and the two pure updaters the page
  applies. `Revise` is the page's `map` over the list and `Delete` is its `filter`. The
  lemmas state what the source promises of them. Both keep the order of the list. Revise
  changes only the targeted records, by exactly one revision each. Delete drops exactly the
  targeted records, and it is the only order-keeping selection that does so. Each operation
  is idempotent or commutative where that is expected. Both preserve non-negative counts
  and unique ids.
- `TopicDetail` (`topic_detail.dfy`) holds the page as a class `TopicPage`. Its fields
  `questions` and `expandedId` are the page's two pieces of state. Its methods are the
  page's handlers. The outcome of each request is an input value of type `Response`
  (`Success(data)` or `Failure`). The answer to the confirmation dialog is a `bool` input.

This page does not use the shared query cache. It fetches its list itself when it mounts
and keeps it in component state, so the model follows that code. The cache lives in
`src/hooks/useData.js`, which is not part of this model.

One might expect that clicking the same header twice restores the previous state. This
holds only when nothing, or that same question, was open before. If another question was
open, the first click switches to the clicked question and the second closes it, so the
page ends with nothing open. `ToggleTwice` states the exact outcome.

"At most one answer is expanded" holds for the rows of a list whose ids are unique. Each
row compares its own id with `expandedId`, so two rows that share an id would expand
together. `AtMostOneExpanded` proves the bound under `UniqueIds`. The handlers preserve
`UniqueIds`, but a load takes whatever the server sends.

## Model

| member | source | states |
|---|---|---|
| `QuestionList.Revise` | src/pages/TopicDetail.jsx:45-47 | the revised list has exactly as many records as the old one; each record goes through `ReviseOne`, the map's callback at lines 45-46 |
| `QuestionList.ReviseAt` | src/pages/TopicDetail.jsx:45-47 | at every position, a record with the revised id gains exactly one revision and keeps its id and both texts; any other record is unchanged |
| `QuestionList.ReviseKeepsIdsAndRaisesCounts` | src/pages/TopicDetail.jsx:45-47 | revise keeps the ids in their order, and no revision count goes down |
| `QuestionList.ReviseKeepsCountsNonNegative` | src/pages/TopicDetail.jsx:46 | counts that start non-negative stay non-negative after a revise |
| `QuestionList.ReviseAbsent` | src/pages/TopicDetail.jsx:45-47 | revising an id that no record carries leaves the list unchanged |
| `QuestionList.ReviseTotal` | src/pages/TopicDetail.jsx:45-47 | the sum of all revision counts grows by exactly the number of records with the revised id |
| `QuestionList.ReviseCountId` | src/pages/TopicDetail.jsx:45-47 | revise does not change how often any id occurs |
| `QuestionList.ReviseCommutes` | src/pages/TopicDetail.jsx:45-47 | two revises give the same list in either order |
| `QuestionList.Delete` | src/pages/TopicDetail.jsx:57 | the list after a delete is never longer than before |
| `QuestionList.DeleteMembers` | src/pages/TopicDetail.jsx:57 | a record is in the result if and only if it was in the list and does not carry the deleted id |
| `QuestionList.DeleteRemovesId` | src/pages/TopicDetail.jsx:57 | no record with the deleted id is left |
| `QuestionList.DeleteLength` | src/pages/TopicDetail.jsx:57 | the result is shorter by exactly the number of records with the deleted id |
| `QuestionList.DeleteIsSubsequence` | src/pages/TopicDetail.jsx:57 | the surviving records keep their relative order |
| `QuestionList.SubsequenceLengthBound` | src/pages/TopicDetail.jsx:57 | an order-keeping selection that avoids the id has at most as many records as the list has without that id |
| `QuestionList.DeleteUnique` | src/pages/TopicDetail.jsx:57 | any order-keeping selection of the list that has no record with the id and is as long as the list minus those records equals the delete result |
| `QuestionList.DeleteIdempotent` | src/pages/TopicDetail.jsx:57 | deleting the same id twice equals deleting it once |
| `QuestionList.DeleteAbsent` | src/pages/TopicDetail.jsx:57 | deleting an id that no record carries leaves the list unchanged |
| `QuestionList.DeleteConcat` | src/pages/TopicDetail.jsx:57 | deleting from a concatenation equals concatenating the deletes of the two parts |
| `QuestionList.DeleteCommutes` | src/pages/TopicDetail.jsx:57 | two deletes give the same list in either order |
| `QuestionList.DeleteKeepsCountsNonNegative` | src/pages/TopicDetail.jsx:57 | counts that start non-negative stay non-negative after a delete |
| `QuestionList.DeleteCountId` | src/pages/TopicDetail.jsx:57 | delete never makes any id occur more often |
| `QuestionList.ReviseDeleteCommute` | src/pages/TopicDetail.jsx:45-57 | a revise and a delete give the same list in either order, also when they target the same id |
| `QuestionList.UniqueIdsAtMostOnce` | src/pages/TopicDetail.jsx:118-119 | in a list with unique ids (the row keys), every id occurs at most once |
| `QuestionList.ReviseKeepsUniqueIds` | src/pages/TopicDetail.jsx:45-47 | revise keeps the ids unique |
| `QuestionList.DeleteKeepsUniqueIds` | src/pages/TopicDetail.jsx:57 | delete keeps the ids unique |
| `TopicDetail.Toggle` | src/pages/TopicDetail.jsx:124 | a click collapses everything exactly when the clicked question was the expanded one; otherwise the clicked question becomes the expanded one |
| `TopicDetail.ToggleTwice` | src/pages/TopicDetail.jsx:124 | two clicks on the same header restore the prior state when nothing or that question was open, and leave nothing open otherwise |
| `TopicDetail.AtMostOneExpanded` | src/pages/TopicDetail.jsx:135-140 | with unique ids, at most one row shows its answer; `ExpandedCount` counts the rows that pass the per-row test `expandedId === q.id` |
| `TopicDetail.TopicPage.constructor` | src/pages/TopicDetail.jsx:9-13 | the page starts with an empty list and nothing expanded |
| `TopicDetail.TopicPage.LoadQuestions` | src/pages/TopicDetail.jsx:19-26 | a successful fetch replaces the list with exactly the server's data; a failed fetch keeps the previous list; the expanded id is untouched |
| `TopicDetail.TopicPage.HandleSubmit` | src/pages/TopicDetail.jsx:28-39 | after a successful creation the list is reloaded; a failed creation or a failed reload keeps the previous list |
| `TopicDetail.TopicPage.HandleRevision` | src/pages/TopicDetail.jsx:41-51 | a successful revise applies Revise to the list, raises the total revisions by the number of targeted records, and keeps non-negative counts and unique ids; a failure changes nothing; the expanded id is untouched |
| `TopicDetail.TopicPage.HandleDelete` | src/pages/TopicDetail.jsx:53-61 | a confirmed, successful delete applies Delete to the list, so no record with the id is left; a declined confirmation or a failed request changes nothing; the list never grows, and non-negative counts and unique ids are kept |
| `TopicDetail.TopicPage.ToggleExpanded` | src/pages/TopicDetail.jsx:124 | the expanded id becomes Toggle of the old one, so it is either nothing or the clicked id; the list is untouched |

## Left out

- The network is not modelled. Each request's outcome is an input. The request paths,
  built at `src/pages/TopicDetail.jsx` lines 21, 31, 44 and 56, are not modelled, because
  a response is an input here. The base address and the bearer-token interceptor in
  `src/utils/api.js` are not modelled either, because they are transport plumbing.
- The `confirm()` dialog is a boolean input. `alert` and `console.error` are not modelled,
  because they only report errors and change no page state.
- Overlapping handlers are modelled as sequential, atomic transitions. This includes the
  reload that `handleSubmit` starts without awaiting it. `ReviseCommutes`,
  `DeleteCommutes` and `ReviseDeleteCommute` show that the order of finished revises and
  deletes does not change the resulting list.
- The topic id from the route is not modelled. It only selects the URL of the fetch, and
  the fetch's result is an input.
- Form fields (`qText`, `aText`, `isFormOpen`), the event's `stopPropagation`, and Markdown
  rendering are not modelled, because they are presentation. The revise button sits in the
  answer panel, which is a sibling of the header that toggles the accordion, so a revise
  click never reaches the header's handler. `HandleRevision` leaves `expandedId` out of
  its frame because `handleRevision` never touches it.
- Ids and revision counts are unbounded integers. The model does not capture JavaScript's
  floating-point numbers, nor an `undefined` count that would turn into `NaN`.
- The shared query cache in `src/hooks/useData.js` is not modelled. Its staleness,
  de-duplication and invalidation behaviour is implemented in `@tanstack/react-query`,
  which is not part of this model.
- The topic list in `src/pages/Dashboard.jsx` is not modelled. That page only replaces its
  list wholesale on refetch.
- Theme persistence, login, routing, layout and the loading spinner are not modelled,
  because they are presentation.
