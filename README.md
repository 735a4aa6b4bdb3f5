# EchoChamber search page — a Dafny model

EchoChamber's search page sends a topic to a backend. The backend returns
news articles sorted into three sentiment categories: supportive, neutral and
opposing. Before the page stores the articles, it cleans each excerpt. It
removes every HTML tag, meaning every match of the global pattern
`<[^>]*>`, and then decodes HTML entities. The page then shows one of three
things: a spinner, a bare search bar, or the three result columns. Which one
depends on two flags, `loading` and `showResults`.

The model has two modules:

- `Articles` (`articles.dfy`) holds the `Article` and `ArticleResponse`
  records, the tag stripping `StripTags` and `cleanArticles` as
  `CleanArticles`. It also holds the lemmas about them: stripping leaves no
  `<` followed later by `>`, its fixed points are exactly the tag-free
  strings, it is idempotent, and it shortens a string exactly when the string
  holds a tag. An unclosed `<` and the text after it survive.
- `SearchPage` (`search_page.dfy`) holds the view selection `SelectView` and
  the outcome of a request, `Settle`. It also holds the class
  `SearchSession`. The class has the page's state fields, and its methods
  make the same steps as `handleSearch`: `BeginSearch`, `ApplyOutcome` and
  `Finish`. Its invariant `Valid` says two things. The spinner and the
  results are never flagged together. Each column is the cleaning of the
  same category of one response.

Entity decoding uses the browser DOM, so it is a parameter `decode` of type
`Decoder`, an arbitrary total function on strings. The session stores it as a
constant. The network request is an input `Outcome`, which is either
`Success(response)` or `Failure`. `Failure` covers every path into the
`catch` block: a network error, an unreadable body, and a body whose category
lists cannot be cleaned.

## Model

| member | source | states |
|---|---|---|
| `Articles.IndexOf` | webpage/react-environment/src/SearchPage.tsx:44 | the first `>` the pattern `[^>]*>` stops at: its index holds `c` and no earlier index does; it is the length when `c` is absent |
| `Articles.CleanArticles` | webpage/react-environment/src/SearchPage.tsx:41-47 | same length and order as the input; each title and url is kept; each excerpt is the decoded, tag-stripped original |
| `Articles.StripTagsChars` | webpage/react-environment/src/SearchPage.tsx:44 | tag removal never introduces a character absent from the input |
| `Articles.StripTagsNoTag` | webpage/react-environment/src/SearchPage.tsx:44 | after the replace, no `<` is followed later by a `>` |
| `Articles.StripTagsFixedPoint` | webpage/react-environment/src/SearchPage.tsx:44 | the replace leaves a string unchanged if and only if the string holds no tag |
| `Articles.StripTagsIdempotent` | webpage/react-environment/src/SearchPage.tsx:44 | removing tags twice gives the same as removing them once |
| `Articles.StripTagsNoOpen` | webpage/react-environment/src/SearchPage.tsx:44 | a string without `<` comes back unchanged |
| `Articles.StripTagsLength` | webpage/react-environment/src/SearchPage.tsx:44 | the result is never longer than the input, and strictly shorter exactly when the input holds a tag |
| `Articles.StripTagsUnclosedSuffix` | webpage/react-environment/src/SearchPage.tsx:44 | text with no `>` is never part of a match: appended after any prefix, it survives verbatim, including an unclosed `<` at its head |
| `Articles.StripTagsLeadingTag` | webpage/react-environment/src/SearchPage.tsx:44 | a complete tag `<…>` at the head is dropped as a whole and the rest is processed |
| `Articles.StripTagsPlainPrefix` | webpage/react-environment/src/SearchPage.tsx:44 | leading text without `<` is kept verbatim |
| `Articles.CleanedExcerptsDecodeTagFree` | webpage/react-environment/src/SearchPage.tsx:44 | every cleaned excerpt is the decoding of a tag-free string no longer than the raw excerpt, so tags are removed before decoding |
| `Articles.CleanArticlesAppend` | webpage/react-environment/src/SearchPage.tsx:41-46 | cleaning is a per-article map: it distributes over concatenation |
| `Articles.StripTagsExample` | webpage/react-environment/src/SearchPage.tsx:44 | `<b>Hello</b> &amp; welcome` becomes `Hello &amp; welcome` before decoding |
| `SearchPage.SelectView` | webpage/react-environment/src/SearchPage.tsx:92-111 | spinner iff `loading`; search bar iff `!loading && !showResults`; results iff `!loading && showResults` |
| `SearchPage.ExactlyOneView` | webpage/react-environment/src/SearchPage.tsx:92-111 | for every pair of flags, exactly one of the three render conditions holds |
| `SearchPage.Settle` | webpage/react-environment/src/SearchPage.tsx:55-72 | on failure all three lists are empty; on success each list has as many articles as the same category of the response |
| `SearchPage.SettleSuccessColumns` | webpage/react-environment/src/SearchPage.tsx:59-61 | on success, index i of each column is the cleaned index i of the same category, with no crossover |
| `SearchPage.SearchSession.constructor` | webpage/react-environment/src/SearchPage.tsx:25-31 | initial state: empty query, not loading, no results, empty columns, so the search bar is shown |
| `SearchPage.SearchSession.BeginSearch` | webpage/react-environment/src/SearchPage.tsx:50-53 | stores the query, sets `loading` and clears `showResults`, so the spinner is shown; the columns keep their previous contents |
| `SearchPage.SearchSession.ApplyOutcome` | webpage/react-environment/src/SearchPage.tsx:55-72 | each column becomes the matching column of `Settle` of the outcome; the query and the flags are unchanged |
| `SearchPage.SearchSession.Finish` | webpage/react-environment/src/SearchPage.tsx:74-75 | clears `loading` and sets `showResults`, so the results are shown; nothing else changes |
| `SearchPage.SearchSession.HandleSearch` | webpage/react-environment/src/SearchPage.tsx:50-76 | a completed search, whatever its outcome, ends with the query stored, `loading` false, `showResults` true, and the columns equal to `Settle` of the outcome; the invariant is kept |

## Left out

- `decodeHtml` (webpage/react-environment/src/SearchPage.tsx:35-39) uses the DOM's entity decoding. It is an arbitrary `Decoder` parameter. Nothing is claimed about the full clean (strip, then decode) beyond "the decoding of a tag-free string". Decoding can bring `<` and `>` back, as in `&lt;b&gt;`.
- `fetch`, `response.json()` and `encodeURIComponent` (webpage/react-environment/src/SearchPage.tsx:56-57) are network I/O and library calls. The request is the `Outcome` input, and the URL is not modelled.
- `console.log` and `console.error` are logging only.
- Overlapping searches that race through the `await`: each search is one sequential transition. The source has no guard against a stale response.
- React's asynchronous, batched state updates: each setter is a field assignment applied in program order.
- All JSX markup, styling, layout and navigation, and HomePage.tsx, are presentational only.
- Pagination: `PaginatedButtonColumn` and `ThreeColumnLayout` are not part of this model. Their source is not available, so page slicing and the back and forward buttons are not modelled.
