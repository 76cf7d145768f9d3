# Puzzles site: video scrubber, SEO metadata and content lists in Dafny

This project models the three parts of the Slash engineering blog and puzzle
site that carry behaviour worth stating:

- **The video player's scrubber** (`Video.dfy`, module `Video`). The player's
  `VideoState` is the class `VideoPlayer`. Its fields are the progress, the
  playing flag, the recorded duration, the dragging flag, the transition flag,
  the hover-marker flag, the "was playing before the drag" snapshot, the hover
  position, and a count of pending transition re-enable callbacks. The `<video>`
  element is the class `MediaElement`. It holds `currentTime`, `duration` and
  how often `play()` and `pause()` were called. Each event handler is one
  atomic method. Pure helpers cover pointer clamping and the `m:ss` readout.
  The object invariant `Valid()` keeps the progress and the hover marker in
  [0, 100]. It also says transitions are only off while a re-enable callback
  is pending. A media duration is a non-negative real, so the model has no
  NaN duration (see "## Left out").
- **SEO metadata** (`Seo.dfy`, module `Seo`). It covers page URLs, base and
  article metadata with their Open Graph and Twitter records, and the
  description taken from a post. That covers excerpt precedence, the fallback
  sentence, tag stripping and truncation to 160 characters.
- **Content slugs and lists** (`Mdx.dfy`, module `Mdx`). It covers slugs from a
  directory listing, the record built for one slug, dropping failed loads,
  puzzles in listing order, and blog posts newest first by a stable sort.

`Wrappers.dfy` defines `Option`, which stands for JavaScript's `undefined` and `null`.

The model follows the code on three points a reader might not expect:
- A time update recomputes the progress even during a drag. The model adds no
  guard there; the zero or unknown duration case is left out (see "## Left out").
- `togglePlay` is not blocked during a drag.
- The bar's own mouse-up handler ends a drag without checking `isDragging`.

`Video.TimeUpdateDuringDrag` shows why the first point is harmless in
practice. While a drag holds the media paused at the seek point, a time update
reproduces the progress the seek showed.

## Model

| member | source | states |
|---|---|---|
| Video.Clamp01 | src/components/Video.tsx:145 | the clamped position lies in [0, 1]; it is the position itself inside [0, 1], 0 below and 1 above |
| Video.Clamp01Monotone | src/components/Video.tsx:145 | clamping preserves the order of two positions |
| Video.TrackFraction | src/components/Video.tsx:143-145 | the pointer's fraction of the bar lies in [0, 1], times the width gives the offset from the bar's left edge when the pointer is over the bar, and is 0 left of the bar and 1 right of it |
| Video.PointerPercent | src/components/Video.tsx:143-149 | the seek percentage lies in [0, 100] wherever the pointer is, and is 0 left of the bar and 100 right of it |
| Video.PointerPercentMonotone | src/components/Video.tsx:143-149 | moving the pointer right never moves the seek percentage left |
| Video.VideoPlayer.constructor | src/components/Video.tsx:88-96 | initial state: progress 0, playing iff autoplay, duration 0, not dragging, transitions on, marker hidden, no snapshot, no pending callback; the invariant holds |
| Video.VideoPlayer.UpdateProgress | src/components/Video.tsx:103-105 | on a time update (positive media duration) progress × duration = currentTime × 100, with no check of the dragging flag; the invariant is kept |
| Video.VideoPlayer.HandleDurationChange | src/components/Video.tsx:115-117 | the recorded duration becomes the media's duration |
| Video.VideoPlayer.HandleLoadedMetadata | src/components/Video.tsx:312-317 | the media's duration is recorded only when it is non-zero; otherwise the old one stays |
| Video.VideoPlayer.HandleEnded | src/components/Video.tsx:119-126 | at the end, a looping player issues one `play()` and is playing; a non-looping one issues none and stops |
| Video.VideoPlayer.UpdateVideoTime | src/components/Video.tsx:139-159 | a seek returns and shows the clamped pointer percentage, sets the media time to that fraction of its duration, turns transitions off, and schedules exactly one re-enable callback |
| Video.VideoPlayer.ReenableTransitions | src/components/Video.tsx:153-156 | the deferred callback turns transitions on and consumes one pending callback; it never turns them off |
| Video.VideoPlayer.HandleProgressClick | src/components/Video.tsx:161-163 | a click on the bar seeks to the pointer |
| Video.VideoPlayer.HandleProgressMouseMove | src/components/Video.tsx:165-177 | hovering puts the marker at the clamped pointer percentage and shows it; progress, media time and transitions change only while dragging, and then as a seek |
| Video.VideoPlayer.HandleProgressMouseLeave | src/components/Video.tsx:179-184 | leaving the bar hides the marker and changes nothing else, so a drag goes on |
| Video.VideoPlayer.HandleProgressMouseDown | src/components/Video.tsx:186-202 | pressing snapshots the playing flag and starts a drag; it pauses the media, once, exactly when it was playing, leaves the player not playing, and seeks to the pointer |
| Video.VideoPlayer.HandleProgressMouseUp | src/components/Video.tsx:204-216 | mouse-up on the bar clears dragging without checking it, and issues `play()` and sets playing exactly when the snapshot says it was playing |
| Video.VideoPlayer.HandleGlobalMouseMove | src/components/Video.tsx:219-226 | a window mouse move seeks, even off the bar, only while dragging and when the bar is found: progress and media time follow the pointer, transitions turn off and one re-enable callback is scheduled; otherwise nothing changes |
| Video.VideoPlayer.HandleGlobalMouseUp | src/components/Video.tsx:228-242 | without a drag nothing changes; a drag ends, and `play()` is issued and playing set exactly when the snapshot holds, otherwise playing is untouched |
| Video.VideoPlayer.TogglePlay | src/components/Video.tsx:252-263 | playing is negated; `pause()` is issued when it was playing and `play()` otherwise, once each |
| Video.VideoPlayer.HandleKeyDown | src/components/Video.tsx:285-289 | Space and Enter toggle playback, issuing `pause()` when it was playing and `play()` otherwise, once each; any other key changes nothing |
| Video.DragSession | src/components/Video.tsx:186-242 | press, drag and release: playback ends as it began, `play()` and `pause()` are each issued once if it was playing and never otherwise, the media's duration is unchanged, and the bar and media show the release point measured on the bar the page lookup finds |
| Video.TimeUpdateDuringDrag | src/components/Video.tsx:103-105 | a time update during a drag, with the media where the seek put it, leaves the progress at the pointer percentage |
| Video.Decimal | src/components/Video.tsx:282 | an integer's text is at least one decimal digit with no leading zero, and its digits denote the integer |
| Video.PadSeconds | src/components/Video.tsx:282 | the seconds within a minute become exactly two digits that denote them |
| Video.FormatTime | src/components/Video.tsx:279-283 | the readout is minutes, ':', and exactly two second digits under 60, with minutes × 60 + seconds equal to the input |
| Video.FormatTimeRoundTrip | src/components/Video.tsx:279-283 | reading the readout back gives the input seconds |
| Video.FormatTimeInjective | src/components/Video.tsx:279-283 | distinct whole-second times have distinct readouts |
| Seo.PageUrl | src/lib/seo.ts:48 | the URL starts with the base URL and equals it exactly when the path is absent or empty |
| Seo.PageUrlRoundTrip | src/lib/seo.ts:48 | the path can be read back from the URL, with an absent path read back as empty |
| Seo.PageUrlInjective | src/lib/seo.ts:48 | distinct non-empty paths give distinct URLs |
| Seo.BaseMetadata | src/lib/seo.ts:43-76 | an absent title or description becomes the default one; the same title and description appear at top level, in Open Graph and in the Twitter card; the image alt is the title; the URL is the page URL; the type is "website" |
| Seo.ArticleMetadata | src/lib/seo.ts:81-99 | equals the base metadata except that the Open Graph type is "article" and carries the given publication time and authors; top level and Twitter card are unchanged |
| Seo.ArticleMetadataConsistent | src/lib/seo.ts:88-98 | an article keeps title, description, URL and image alt in agreement |
| Seo.FallbackSentence | src/lib/seo.ts:119-121 | "Read {title} by {author} on Puzzles" when both fallbacks are non-empty, the fixed default sentence otherwise |
| Seo.ExtractedText | src/lib/seo.ts:114-121 | with a match, the paragraph when non-empty, else the leading-line group; without one, the fallback sentence |
| Seo.StripTags | src/lib/seo.ts:124 | the stripped text holds no '<', is no longer than the input, and is the input itself when the input has no '<' |
| Seo.StripTagsIdempotent | src/lib/seo.ts:124 | stripping twice equals stripping once |
| Seo.StripTagsRemovesClosedTag | src/lib/seo.ts:124 | a closed tag after tag-free text disappears entirely, the text before it is kept, and the rest is stripped in the same way |
| Seo.StripTagsKeepsText | src/lib/seo.ts:124 | text before the first '<' passes through stripping unchanged |
| Seo.Truncate | src/lib/seo.ts:124 | the result is a prefix of the input of at most 160 characters; it is the whole input when that fits, and otherwise exactly 160 |
| Seo.ExtractDescription | src/lib/seo.ts:104-126 | a non-empty excerpt is returned verbatim; otherwise the result has at most 160 characters and no '<', is a prefix of the stripped text, all of it when that fits and exactly its first 160 characters otherwise |
| Seo.FallbackDescription | src/lib/seo.ts:117-124 | without an excerpt or a match, the result is exactly "Read {title} by {author} on Puzzles" when both contain no '<' and the sentence fits |
| Seo.DefaultSentenceDescription | src/lib/seo.ts:119-124 | without an excerpt, a match or both fallbacks, the result is the default sentence |
| Mdx.MdxFiles | src/lib/mdx.ts:64 | the kept names all end in ".mdx"; each ".mdx" name is kept as often as it is listed and every other name is dropped |
| Mdx.MdxFilesConcat | src/lib/mdx.ts:64 | filtering keeps listing order: filtering a concatenation concatenates the filtered parts |
| Mdx.StripMdx | src/lib/mdx.ts:65 | the slug followed by ".mdx" is the file name, so only the trailing extension is removed |
| Mdx.Slugs | src/lib/mdx.ts:61-66 | one slug per ".mdx" name (also for the puzzle listing at src/lib/mdx.ts:69-74); slug i followed by ".mdx" is the i-th ".mdx" name |
| Mdx.SlugsConcat | src/lib/mdx.ts:61-66 | slugs come out in listing order |
| Mdx.SlugsSingle | src/lib/mdx.ts:64-65 | one name yields its stripped slug when it ends in ".mdx" and nothing otherwise |
| Mdx.DoubleExtensionSlug | src/lib/mdx.ts:65 | "a.mdx.mdx" gives "a.mdx" and "notes.md" gives nothing |
| Mdx.BlogPostBySlug | src/lib/mdx.ts:77-104 | a post exists exactly when the slug's file reads and its frontmatter parses; it carries the requested slug, the frontmatter fields and the raw file text |
| Mdx.PuzzleBySlug | src/lib/mdx.ts:107-132 | a puzzle exists exactly when the slug's file reads and its frontmatter parses; it carries the requested slug, the frontmatter fields and the raw file text |
| Mdx.LoadBlogPosts | src/lib/mdx.ts:137 | one load result per slug, the i-th for the i-th slug |
| Mdx.LoadPuzzles | src/lib/mdx.ts:149 | one load result per slug, the i-th for the i-th slug |
| Mdx.Present | src/lib/mdx.ts:142 | the kept items are exactly the loaded ones, each as often as it loaded |
| Mdx.PresentConcat | src/lib/mdx.ts:153 | dropping failed loads keeps the order of the rest |
| Mdx.AllPuzzles | src/lib/mdx.ts:147-154 | every returned puzzle has a listed slug and is the puzzle loaded for that slug |
| Mdx.AllPuzzlesConcat | src/lib/mdx.ts:147-154 | puzzles come out in listing order: a concatenated listing gives the concatenated results |
| Mdx.AllPuzzlesSingle | src/lib/mdx.ts:147-154 | one listed name contributes its puzzle exactly when it is an ".mdx" file that loads |
| Mdx.InsertByDate | src/lib/mdx.ts:143 | insertion adds exactly the one post |
| Mdx.InsertByDateNewestFirst | src/lib/mdx.ts:143 | inserting into a newest-first sequence keeps it newest first |
| Mdx.InsertByDateStable | src/lib/mdx.ts:143 | the inserted post goes before every post with the same timestamp |
| Mdx.SortNewestFirst | src/lib/mdx.ts:143 | the result is newest first and a permutation of the input |
| Mdx.SortNewestFirstStable | src/lib/mdx.ts:143 | posts with equal timestamps keep their input order, as a stable sort does |
| Mdx.NewestFirstUnique | src/lib/mdx.ts:143 | two newest-first sequences with the same order within each timestamp are equal, so every stable sort by this comparator gives the same result |
| Mdx.AllBlogPosts | src/lib/mdx.ts:135-144 | the result is newest first and a permutation of the posts that loaded; each is the post loaded for its listed slug |
| Mdx.AllBlogPostsStable | src/lib/mdx.ts:141-143 | any newest-first list that keeps the loaded posts' order within each timestamp equals the result |

## Left out

- Fullscreen (`toggleFullscreen`, src/components/Video.tsx:265-277) is left out. It calls the browser's fullscreen API, and its only failure path logs to the console.
- The DOM write of the time readout is left out (src/components/Video.tsx:107-112), and so is the page lookup of the bar. The lookup becomes the `progressBar` option of `HandleGlobalMouseMove`; in the source it returns the page's first `.progress-bar` (src/components/Video.tsx:221), not necessarily this player's.
- React scheduling is left out. Each handler is one atomic transition on the current state. The source's batched `setVideoState` updates and its handlers that read render-time state (src/components/Video.tsx:174, 189, 206, 229) are not modelled. One example: a drag released over the bar runs the bar's mouse-up and then the window's, and the window's may still see the old dragging flag.
- The 50 ms timer is left out. Only the pending re-enable callbacks are counted, and `ReenableTransitions` is the callback; there is no clock.
- Video.VideoPlayer.UpdateProgress: requires a positive media duration. With a zero or unknown duration the source stores NaN or Infinity as the progress, and exact reals have neither.
- Video.TrackFraction: requires a bar of positive width. A zero width divides by zero in the source, and NaN is not modelled.
- Video.VideoPlayer.HandleLoadedMetadata: an unknown (NaN) duration is not modelled. A media duration is a non-negative real, and the guard is modelled as "non-zero".
- Video.VideoPlayer.UpdateVideoTime: a seek before the duration is known is not modelled. In the source that duration is NaN: src/components/Video.tsx:147 queues transitions off, then the assignment at line 148 throws, so the progress is not set and no re-enable timer is scheduled, which leaves transitions off until a later seek completes and its timer runs. The model's duration is always a number, so its seek always completes; the same holds for the handlers that seek through it.
- Video.DragSession: the release point equals the pointer's position on the pressed bar only when the page lookup returns this player's bar (the first or only player on a page). With several players, a drag on any but the first seeks against the first bar's geometry; the model states the result against that found bar, `pageBar`.
- Video.FormatTime: takes whole seconds. The source floors fractional seconds first.
- Seo.ExtractDescription: requires that the extracted text is defined. For content such as `<p></p>`, the first capture group is empty and the second is unset, so the source calls `replace` on `undefined` and throws.
- The regular-expression match of the first paragraph is not computed. `ExtractDescription` takes its capture groups as the `firstParagraph` input, so the post content itself is not a parameter.
- Seo.Truncate: counts characters, whereas JavaScript's `substring` counts UTF-16 code units.
- Open Graph keys that are present but `undefined` in an article are treated like absent keys; both are `None`.
- Filesystem reads, frontmatter compilation (`extractFrontmatter`, `compileMdxContent`, src/lib/mdx.ts:7-34) and date parsing are inputs, not computed. They are the `readFile`, `frontmatter` and `timeOf` parameters. The `console.error` logging of a failed load (src/lib/mdx.ts:101, 129) is left out; the load gives None. `path.join` normalisation of the file path is not modelled, so a slug's file is looked up under `slug + ".mdx"`.
- Dates that do not parse are not modelled. They give NaN in the source's comparator, and `timeOf` always returns an integer.
- Promise concurrency in `getAllBlogPosts`/`getAllPuzzles` is not modelled. `Promise.all` keeps slug order, and that is all the model relies on.
