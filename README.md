# Video gallery core, modelled in Dafny

The server lists the video files of one directory and serves them as a paged HTML
gallery. This project models the gallery pipeline of `src/main.rs` and proves its
properties:

- **Listing** (`list_files`, module `Lister`). The names of the directory entries
  are collected in iteration order. An entry whose name is not valid Unicode
  contributes a single space, and an entry that yields an error contributes
  nothing. The list is then sorted ascending and, when descending order is
  configured, reversed. A directory that cannot be opened gives the empty list.
- **Page arithmetic** (module `Pager`). It covers the page count `max_pages`, the
  coercion of page 0 to page 1, and the `skip((page-1)*video_count).take(video_count)`
  slice. All of it is on `u16`, as in a release build: the product and the
  `as u16` cast keep the low 16 bits (module `Word16`).
- **Navigation** (`render_navigation`, module `Navigation`). It renders a prev
  control, a ` PAGE n ` label and a next control. Page numbers are written in
  decimal (module `Decimal`).
- **Timestamps** (`parse_ts`, module `Timestamp`). The text before the first `.`
  is read as seconds since the epoch and formatted in local time. When that text
  does not parse, the name is kept. The date library is an abstract pair of
  functions, `DateCodec(parse, format)`.
- **Page composition** (`render_list`, module `Gallery`). The document is:
  - the head;
  - the heading with the instance name;
  - the navigation, drawn for the page *as requested*;
  - one video block and one link block per file of the *coerced* page;
  - the foot.

The imperative parts keep their shape:
- `ListFiles`, `RenderNavigation`, `RenderList`, `WriteBlocks` and `WriteBlock`
  are methods that append to a buffer, with loops where the source loops.
- Each method is proved equal to a function that defines its result:
  - `ListFiles` to `Listing`;
  - `RenderNavigation` to `NavigationHtml`;
  - `RenderList` to `PageHtml`;
  - `WriteBlocks` and `WriteBlock` to `ItemBlocks` and `ItemBlock`.
- The lemmas are stated about those functions.

## Behaviour worth noting

- A file name that is not valid UTF-8 is not skipped: it is listed as `" "`
  (src/main.rs:29). Only entries that yield an error are skipped (src/main.rs:31).
- Page 0 does **not** render the same document as page 1. It shows the same
  files (`Pager.PageZeroItemsArePageOneItems`), but the navigation is drawn from
  the uncoerced page (src/main.rs:66, before the coercion at src/main.rs:69).
  - Its label reads ` PAGE 0 `.
  - Its prev control links to `?page=65535`, because `0 - 1` wraps on `u16`
    (`Navigation.PageZeroNavigation`).
  - `Gallery.PageZeroIsNotPageOne` proves that the two documents differ.
- A zero `video_count` is not rejected when the configuration is loaded. It
  reaches a division by zero at src/main.rs:62. The model requires
  `videoCount > 0` wherever the source divides.
- The `u16` product `(page - 1) * video_count` wraps in a release build. A page
  far past the end therefore shows files from the front of the list again
  (`Pager.FarPageWrapsToFront`).
- With 65536 pages' worth of files, the page count truncates to 0
  (`Pager.MaxPagesWrapsToZero`).

## Model

| member | source | states |
|---|---|---|
| `Lister.DisplayName` | src/main.rs:29 | the text pushed for an entry, `to_str().unwrap_or(" ")`: the name itself when it is Unicode, a single space otherwise; `CollectedAround` states where it lands |
| `Lister.Collected` | src/main.rs:26-33 | the names the loop pushes, in iteration order, never more than the entries; its behaviour on each kind of entry is stated by `CollectedAround` |
| `Lister.CollectedAppend` | src/main.rs:26-33 | collecting two runs of entries gives the names of the first run followed by those of the second |
| `Lister.CollectedAround` | src/main.rs:28-31 | an error entry adds nothing and the names before and after it keep their order; a readable entry adds its display name (`" "` when not Unicode) in its place |
| `Lister.CollectedKeepsEveryEntry` | src/main.rs:26-33 | when every entry is readable, each entry yields exactly one name, in iteration order, and a non-Unicode name yields `" "` |
| `Lister.LexLe` | src/main.rs:38 | the `Ord` of `String` that `sort` uses: lexicographic by code point, which for UTF-8 text is the same order as Rust's byte-wise comparison; `LexLeTotal`, `LexLeAntisymmetric` and `LexLeTransitive` show it is a total order |
| `Lister.LexLeTotal` | src/main.rs:38 | the string order used by `sort` relates any two names one way or the other |
| `Lister.LexLeAntisymmetric` | src/main.rs:38 | two names each at most the other are equal |
| `Lister.LexLeTransitive` | src/main.rs:38 | the string order is transitive |
| `Lister.SortAscending` | src/main.rs:38 | the result of `sort`; `SortAscendingCorrect` and `AscendingPermutationUnique` show it is the one ascending permutation of the names |
| `Lister.SortAscendingCorrect` | src/main.rs:38 | the sorted list is ascending and a permutation of its input |
| `Lister.AscendingPermutationUnique` | src/main.rs:38 | two ascending permutations of the same names are the same list, so every correct sort gives one result |
| `Lister.Reverse` | src/main.rs:39-41 | the reversed list has the same length, and position i holds the element at position n-1-i |
| `Lister.ReversePermutation` | src/main.rs:39-41 | reversing keeps every name with its multiplicity |
| `Lister.Listing` | src/main.rs:22-43 | the list `list_files` returns; its order and contents are stated by `ListingOrder` and `ListFiles` |
| `Lister.Names` | src/main.rs:24-37 | the names gathered by the `match` on `read_dir`: the collected names when the directory opens, none when it does not; `ListingOfUnopenedDirectory` states the failure arm |
| `Lister.ListingOfUnopenedDirectory` | src/main.rs:24-42 | a directory that cannot be opened lists nothing, in either order |
| `Lister.ListingOrder` | src/main.rs:38-41 | the listing holds exactly the collected names; it is ascending by default; when descending is set it is exactly the reverse of the ascending listing, hence descending |
| `Lister.ListingIgnoresIterationOrder` | src/main.rs:26-38 | two directories that yield the same names in any order give the same listing |
| `Lister.ListFiles` | src/main.rs:22-43 | the push loop, sort and optional reverse return the listing: a permutation of the collected names, ascending, or descending and equal to the reversed ascending listing |
| `Lister.ThreeNamesListed` | src/main.rs:22-43 | entries b.mp4, a.mp4, c.mp4 are listed as a.mp4, b.mp4, c.mp4 by default |
| `Word16.Wrap` | src/main.rs:70 | `u16` arithmetic keeps values already in range and otherwise differs from the exact value by a multiple of 65536 |
| `Decimal.NatToDecimal` | src/main.rs:94-98 | a page number is written as canonical decimal digits, with a leading `0` only for zero |
| `Decimal.DecimalRoundTrip` | src/main.rs:94-98 | reading back the written digits gives the page number |
| `Decimal.CanonicalRoundTrip` | src/main.rs:94-98 | every canonical digit string is the rendering of its value |
| `Decimal.NatToDecimalInjective` | src/main.rs:94-98 | distinct page numbers are written differently, so links to distinct pages differ |
| `Pager.MaxPages` | src/main.rs:62-65 | the page count with its `u16` cast; `MaxPagesIsCeiling` and `MaxPagesWrapsToZero` state what it is |
| `Pager.MaxPagesIsCeiling` | src/main.rs:62-65 | while it fits in a `u16`, the page count is 0 exactly for no files and otherwise the least m with `(m-1)*vc < len <= m*vc` |
| `Pager.MaxPagesWrapsToZero` | src/main.rs:62-65 | with 65536 pages' worth of files, the `as u16` cast makes the page count 0 |
| `Pager.Skip` | src/main.rs:70 | `Iterator::skip`: the elements after the first n, in order, and none when n reaches the length |
| `Pager.Take` | src/main.rs:70 | `Iterator::take`: the first n elements in order, or all of them when there are fewer |
| `Pager.EffectivePage` | src/main.rs:69 | page 0 is sliced as page 1, and any other page as itself |
| `Pager.SkipCount` | src/main.rs:70 | the number of files skipped; `PageItemsSlice` and `FarPageWrapsToFront` state it in range and when it wraps |
| `Pager.PageItems` | src/main.rs:70 | a page never shows more than `video_count` files |
| `Pager.PageZeroItemsArePageOneItems` | src/main.rs:69-70 | page 0 shows the same files as page 1 |
| `Pager.PageItemsSlice` | src/main.rs:70 | while the skip product fits in a `u16`, page p shows exactly `files[(p-1)*vc .. min(p*vc, len)]` in order, and nothing exactly when `(p-1)*vc >= len` |
| `Pager.PageBeyondLastIsEmpty` | src/main.rs:62-70 | a page past the page count shows no file, while the count and the skip product fit in a `u16` |
| `Pager.FarPageWrapsToFront` | src/main.rs:70 | with 100 files and 10 per page, page 6555 wraps its skip count to 4 and shows files 4 to 13 |
| `Pager.PagesUpToEnd` | src/main.rs:70 | with fewer than 65536 files, when page n starts inside the list (`(n-1)*vc < len`) or n is 0, pages 1 to n taken in order give the files up to position n*vc, cut at the end of the list |
| `Pager.PagesUpToPrefix` | src/main.rs:70 | with fewer than 65536 files, when page n starts inside the list (`(n-1)*vc < len`) or n is 0, pages 1 to n give the first `min(n*vc, len)` files, in order |
| `Pager.PagesPartitionFiles` | src/main.rs:62-70 | with fewer than 65536 files, pages 1 to `max_pages` in order reproduce the listing, with no file repeated or dropped |
| `Pager.ThreeFilesTwoPerPage` | src/main.rs:62-70 | three files at two per page make two pages: the first two files, then the third |
| `Navigation.NavigationHtml` | src/main.rs:88-104 | the fragment `render_navigation` returns; its three controls are stated by `PrevControl`, `PageLabel` and `NextControl` |
| `Navigation.PrevControl` | src/main.rs:91-95 | the prev control is inert text exactly on page 1, and otherwise links to `?page=` page - 1 computed on `u16` |
| `Navigation.PrevMarker` | src/main.rs:91-95 | the prev cell's content begins with the text `prev` on page 1 and with `<a href="` on any other page, so the two fragments differ at the first character of that content (`p` against `<`) |
| `Navigation.PageLabel` | src/main.rs:96 | after the prev cell comes the label ` PAGE n ` for the page as requested |
| `Navigation.NextControlLinks` | src/main.rs:97-98 | below the page count, the fragment ends with the cell linking to `?page=` page + 1, and not with the inert `next` cell |
| `Navigation.NextControlInert` | src/main.rs:99-100 | from the page count on, the fragment ends with the inert cell `<div class="navigation-c">next</div>` and the closing tag, and not with a next link |
| `Navigation.NextControl` | src/main.rs:97-101 | the fragment ends with the link to page + 1 exactly when page < max_pages, and with the inert `next` cell exactly otherwise, so always when max_pages is 0 |
| `Navigation.PageZeroNavigation` | src/main.rs:94-96 | page 0 gets a prev link to page 65535 and the label ` PAGE 0 ` |
| `Navigation.RenderNavigation` | src/main.rs:88-104 | the buffer built cell by cell is the navigation fragment of the page |
| `Navigation.FirstOfTwoPages` | src/main.rs:88-104 | page 1 of 2 has an inert prev control, the label ` PAGE 1 ` and a next link to page 2 |
| `Timestamp.FirstSegment` | src/main.rs:107 | the segment read is a prefix of the name, holds no `.`, and is followed by a `.` unless it is the whole name |
| `Timestamp.FirstSegmentUnique` | src/main.rs:107 | only one prefix has those three properties, so they define the first segment |
| `Timestamp.FirstSegmentOfJoin` | src/main.rs:107 | the first segment of `stem.rest` is `stem` when the stem has no `.` |
| `Timestamp.ParseTs` | src/main.rs:106-116 | the label `parse_ts` gives a name; `ParseTsReadsStem` and `ParseTsWithoutDot` state it |
| `Timestamp.ParseTsReadsStem` | src/main.rs:106-116 | only the stem is parsed: when it parses, the label is the formatted instant whatever the extension; otherwise the whole name, extension included, is returned |
| `Timestamp.ParseTsWithoutDot` | src/main.rs:106-116 | a name without `.` is parsed whole and kept unchanged when it does not parse |
| `Gallery.ItemBlocks` | src/main.rs:70-81 | the blocks of a run of files; `ItemBlocksAt` and `ItemBlocksAppend` state their layout |
| `Gallery.ItemBlocksAppend` | src/main.rs:70-81 | the blocks of two runs of files are the blocks of the first run followed by those of the second |
| `Gallery.ItemBlocksAt` | src/main.rs:70-81 | each file of a page gets a video block and then a link block, both addressed `{uri_path}/video/{file}`, and labelled by `parse_ts` when enabled, else by the name; they sit after the blocks of earlier files and before those of later ones |
| `Gallery.WriteBlock` | src/main.rs:71-80 | one pass of the loop appends the file's video block, then its link block |
| `Gallery.WriteBlocks` | src/main.rs:70-81 | the loop appends the blocks of exactly the files `take(video_count)` yields, in order |
| `Gallery.PageHtml` | src/main.rs:45-86 | the document `render_list` returns; `RenderList`, `PageZeroIsNotPageOne` and `PageBeyondLastShowsNoFiles` state it |
| `Gallery.RenderList` | src/main.rs:45-86 | the returned document is: the head, the heading, the navigation for the requested page, the blocks of the coerced page's files, the foot |
| `Gallery.PageZeroIsNotPageOne` | src/main.rs:66-70 | page 0 shows page 1's files under page 0's navigation, so its document differs from page 1's |
| `Gallery.PageBeyondLastShowsNoFiles` | src/main.rs:62-101 | a page past the last one, in the `u16` range, renders no file blocks, and its navigation ends with the inert `next` cell rather than a next link |

## Left out

- `main` (src/main.rs:118-169) is not modelled. It covers the HTTP routes, the
  TOML configuration loading, the page query parameter, process exit, the
  cache-control header for static files and the async runtime. These are I/O and
  framework wiring.
- `std::fs::read_dir` (src/main.rs:24) is modelled by its outcome, not called.
  The outcome is the `Lister.Directory` value: either the sequence of entries or
  results in iteration order, or a failure to open.
- The date library's epoch parse and its `%e %b %Y %T` local-time formatting
  (src/main.rs:107-110) are abstract functions passed in as
  `Timestamp.DateCodec`. They depend on the host's time zone.
- The `unwrap_or("0")` default at src/main.rs:107 is not a branch of the model.
  `split(".")` always yields at least one piece, so the default is never used.
- `Vec::sort` is modelled by the result it must produce, not by the standard
  library's merge sort. `Lister.AscendingPermutationUnique` shows that every
  correct sort yields that result.
- The sort and reverse work in place on the vector. The model works on the
  sequence value, which nothing else aliases.
- Debug builds panic on `u16` overflow. The model follows a release build, where
  the arithmetic wraps.
- A `video_count` of 0 divides by zero (src/main.rs:62) in every build. This
  panic is a precondition (`videoCount > 0`), not a modelled outcome.
- `write!(...).ok()` on a `String` never fails. Its error path is not modelled.
- `files.len()` is a `usize`. Its width is not modelled: lengths are unbounded
  naturals.
- Pager.MaxPagesIsCeiling: holds only while the page count fits in a `u16`
  (`len <= 65535 * vc`). Beyond that the cast truncates, as
  `Pager.MaxPagesWrapsToZero` shows.
- Pager.PageItemsSlice: holds only while `(page-1)*vc < 65536`. Beyond that the
  skip count wraps, as `Pager.FarPageWrapsToFront` shows.
- Pager.PagesPartitionFiles: is proved only for fewer than 65536 files; the
  partition fails once the page count or `(page-1)*video_count` leaves `u16`.
- Pager.PagesUpToEnd and Pager.PagesUpToPrefix: are proved only for fewer than
  65536 files and for pages that start inside the list, where the skip product
  does not wrap.
- scripts/capture_motion.py is not part of this model. It drives a camera, uses
  floating point, wall-clock time and a subprocess, and loops forever.
