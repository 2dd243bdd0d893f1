# Truth or Dare card generator — a Dafny model

The program reads a list of "truth" questions and a list of "dare" questions,
builds a shuffled deck with as many truths as dares, and lays the deck out on
printable pages: a grid of card rectangles inside half-inch margins, each card
with its category title and its question word-wrapped to the card, and a
"Page i of N" footer on every page. This project models the logic of that
program and proves what it does:

- `text.dfy` (module `Text`): Python's `str.split()`, `' '.join(...)` and
  `str.strip()` on strings, with the exact set of characters Python treats as
  whitespace, and the round trip `Split(Join(ws)) == ws` for lists of words.
- `deck.dfy` (module `Deck`): `generate_cards`. The two `random.sample` calls
  and the `random.shuffle` are inputs (a `Draw`): each sample is a sequence
  of distinct pool positions and the shuffle a permutation. All properties
  hold for every such draw. The three ways the function raises are error
  results: an odd total, an empty list (division by zero) and a negative
  sample size.
- `layout.dfy` (module `Layout`): the grid arithmetic of `draw_cards_to_pdf`:
  columns and rows by floor division, the shrinking fallback, slot
  coordinates and the page count. Lengths are exact reals in points.
- `pagination.dfy` (module `Pagination`): the nested page/row/column loop
  with its `card_index` counter and early breaks, as a method that returns
  the slots it fills and the footers it writes, proved equal to a row-major
  reference placement.
- `wrap.dfy` (module `Wrap`): the greedy word wrap as a method proved equal
  to a reference fold, and the placement of the wrapped lines on the card.
  Text width (`stringWidth`) is an arbitrary function `width`. Only the
  statements about over-wide words assume more: that a part of a text is
  never wider than the whole (`Wrap.Monotone`), as for a sum of glyph widths.
- `settings.dfy` (module `Settings`): the card-count coercion and the
  output-file-name rule from `main`.
- `wrappers.dfy` (module `Wrappers`): `Option` and `Result`.

Three facts of the code that a reader might not expect:

- Each question list is repeated `num_each // len + 1` times. This is one
  more copy than needed when `len` divides `num_each`.
- With Letter paper, the default 108 x 180 pt card and 36 pt margins, the
  printable area is 540 x 720 pt. That gives 5 columns by 4 rows, 20 cards a
  page, and a 25-card deck takes 2 pages (`Layout.LetterDefaultGrid`).
- `generate_cards` does not reject a total of 0: it returns an empty deck.
  It rejects only an odd total by itself. An empty list fails with a
  division by zero and a negative even total fails inside `random.sample`.

## Model

| member | source | states |
|---|---|---|
| `Text.IsSpace` | playing_card.py:170 | the characters `str.isspace()` accepts, which `split()` and `strip()` treat as whitespace: ASCII space, tab to carriage return, U+001C-U+001F, U+0085, U+00A0, U+1680, U+2000-U+200A, U+2028, U+2029, U+202F, U+205F and U+3000 |
| `Text.Split` | playing_card.py:170 | every item of `question.split()` is a non-empty run of non-whitespace characters (`Text.WeaveSplit` and `Text.SplitIsWeave` pin down which runs) |
| `Text.Join` | playing_card.py:175-183 | `' '.join(ws)`: the words with one space between each two; `Text.SplitJoin` undoes it on lists of words |
| `Text.WeaveSplit` | playing_card.py:170 | any way of writing a string as words separated by non-empty whitespace runs, with whitespace allowed at either end, gives back exactly those words under `split()` |
| `Text.SplitIsWeave` | playing_card.py:170 | every string is the words of `split()` woven with the whitespace runs `Gaps` finds, so together with `Text.WeaveSplit` the words are exactly the maximal non-whitespace runs, in order |
| `Text.SplitJoin` | playing_card.py:175-183 | splitting the space-joined words of a line gives back exactly those words |
| `Text.Strip` | playing_card.py:272 | `strip()` leaves no whitespace at either end and removes only whitespace, from the two ends only |
| `Deck.GenerateCards` | playing_card.py:24-45 | the odd-total error is raised exactly for an odd total; otherwise an empty list raises a division by zero; a negative even total fails in the sampling; otherwise the deck has exactly `total` cards |
| `Deck.Repeat` | playing_card.py:37-38 | `xs * n` has `n` times the length of `xs`, and none for `n <= 0` |
| `Deck.Tagged` | playing_card.py:43 | `[(category, q) for q in qs]` has one card per question |
| `Deck.Copies` | playing_card.py:34-35 | `num_each // len + 1` copies of a list of length `len`; `Deck.PoolLargerThanSample` shows they always give more than `num_each` items |
| `Deck.Pool` | playing_card.py:37-38 | `xs * (num_each // len + 1)`; `Deck.PoolLargerThanSample` gives its length and `Deck.PoolMultiset` its contents |
| `Deck.IsSample` | playing_card.py:40-41 | a possible result of `random.sample(pool, k)`: `k` distinct positions of the pool; `Deck.SelectSubMultiset` shows the picks are a sub-multiset of the pool |
| `Deck.IsPermutation` | playing_card.py:44 | a possible result of `random.shuffle` on `n` cards: a sample of all `n` positions; `Deck.PermutationPreservesMultiset` shows no card is lost or added |
| `Deck.Unshuffled` | playing_card.py:43 | the sampled truths tagged TRUTH followed by the sampled dares tagged DARE, before the shuffle; `Deck.GenerateCardsIsPermutation` relates the deck to it |
| `Deck.PoolLargerThanSample` | playing_card.py:34-38 | the pool `list * (num_each // len + 1)` is strictly longer than `num_each`, so sampling without replacement never fails |
| `Deck.SamplingNeverFails` | playing_card.py:34-44 | for an even, non-negative total and non-empty lists a valid draw always exists |
| `Deck.SelectSubMultiset` | playing_card.py:40-41 | a sample at distinct pool positions is a sub-multiset of the pool |
| `Deck.PermutationPreservesMultiset` | playing_card.py:44 | a shuffle neither loses nor adds a card |
| `Deck.GenerateCardsIsPermutation` | playing_card.py:40-44 | the deck is a permutation of the sampled truths tagged TRUTH followed by the sampled dares tagged DARE |
| `Deck.GenerateCardsCounts` | playing_card.py:31-44 | a successful deck holds exactly `total / 2` truths and `total / 2` dares |
| `Deck.CountOfPermutation` | playing_card.py:44 | the shuffle does not change how many cards of a category there are |
| `Deck.DeckMultiplicity` | playing_card.py:37-43 | a card occurs in the deck at most as often as its question occurs in the pool of its category |
| `Deck.GenerateCardsOrigin` | playing_card.py:37-43 | a card's question comes from its own category's list, and an entry that occurs m times in its list appears at most m * (num_each // len + 1) times in its category |
| `Deck.GenerateCardsSources` | playing_card.py:37-43 | every TRUTH card holds an entry of the truth list and every DARE card one of the dare list |
| `Layout.AvailableWidth` | playing_card.py:102-103 | the page width less two 36 pt margins; `Layout.StandardSizesPrintable` shows it is positive for the offered papers |
| `Layout.AvailableHeight` | playing_card.py:102-104 | the page height less two 36 pt margins; `Layout.StandardSizesPrintable` shows it is positive for the offered papers |
| `Layout.Grid.CardsPerPage` | playing_card.py:108-119 | `rows * cols`; `Layout.ComputeGrid` makes it at least 1 and `Pagination.PagesFull` fills every page but the last with it |
| `Layout.FloorDiv` | playing_card.py:106-107 | `int(a // b)` is the number of whole `b` that fit into `a`: `q * b <= a < (q + 1) * b` |
| `Layout.ComputeGrid` | playing_card.py:102-119 | the grid has at least one column and one row, and its columns and rows of cards fit inside the printable area |
| `Layout.GridIsMaximal` | playing_card.py:106-118 | one more column or one more row would not fit |
| `Layout.GridCardSize` | playing_card.py:106-119 | a card side that fits is kept and its count is the floor division; a side longer than the printable area is cut to it and gives one card along that axis |
| `Layout.TotalPages` | playing_card.py:123 | `(total + per_page - 1) // per_page`; `Layout.TotalPagesIsCeiling` shows it is the ceiling |
| `Layout.SlotX` | playing_card.py:136 | the left edge `margin + col * card_width` of a column; `Layout.SlotInsideMargins` and `Layout.SlotsDisjoint` are about it |
| `Layout.SlotY` | playing_card.py:137 | the bottom edge `page_height - margin - (row + 1) * card_height` of a row; `Layout.SlotInsideMargins` and `Layout.SlotsDisjoint` are about it |
| `Layout.TotalPagesIsCeiling` | playing_card.py:123 | `(total + per_page - 1) // per_page` is the ceiling: the pages hold the deck, one page fewer would not, and an empty deck has no pages |
| `Layout.SlotInsideMargins` | playing_card.py:136-137 | every slot `(x, y)` lies inside the margins: `x >= margin`, `x + card_width <= page_width - margin`, `y >= margin`, `y + card_height <= page_height - margin` |
| `Layout.SlotsDisjoint` | playing_card.py:136-137 | two different slots of the grid do not overlap |
| `Layout.StandardSizesPrintable` | playing_card.py:51-55 | Letter, A4 and Legal all leave a printable area inside the margins |
| `Layout.LetterDefaultGrid` | playing_card.py:102-123 | Letter with the default card gives 5 x 4 = 20 cards a page; 50 cards take 3 pages and 25 cards 2 |
| `Layout.OversizedCardGrid` | playing_card.py:110-119 | a card larger than the Letter printable area is cut to 540 x 720 pt, one card a page |
| `Pagination.Paginate` | playing_card.py:121-209 | the loop places every card index `0..total-1` exactly once, in increasing order, at its row-major slot, and writes `ceil(total / per_page)` footers "Page p+1 of N" |
| `Pagination.SlotAtRowMajor` | playing_card.py:131-137 | each slot is on the grid and `page * per_page + row * cols + col` is the card's deck position |
| `Pagination.PlacementOrdered` | playing_card.py:131-137 | later cards come later on the page or on a later page: by page, then row, then column |
| `Pagination.PlacementInsideMargins` | playing_card.py:136-137 | every placed card lies inside the page margins |
| `Pagination.PlacementNoOverlap` | playing_card.py:136-140 | two cards on the same page do not overlap |
| `Pagination.CardsOnPageCount` | playing_card.py:131-202 | page p holds `min(per_page, n - p * per_page)` cards, and none past the end of the deck |
| `Pagination.PagesFull` | playing_card.py:121-209 | every page but the last holds exactly `per_page` cards, the last holds between 1 and `per_page`, and no card lies beyond it |
| `Pagination.LetterDefaultPages` | playing_card.py:121-209 | a 50-card deck on default Letter pages is split 20, 20, 10 |
| `Wrap.MaxWidth` | playing_card.py:167 | `card_width - 20`, 10 pt of padding on each side; `Wrap.WrapQuestion` wraps at it |
| `Wrap.WrapQuestion` | playing_card.py:167-183 | the words of the emitted lines are `question.split()` in order; a line of two or more words measures at most `card_width - 20`; only the first line can be empty, and it is empty exactly when the first word alone is too wide; when every word fits alone, every line fits and none is empty |
| `Wrap.WrapFrom` | playing_card.py:174-183 | the wrapping loop as a fold from a state (finished lines, current line, words left); `Wrap.WrapQuestion` is proved equal to it from the start state |
| `Wrap.WrapFromGreedy` | playing_card.py:174-183 | at every step, a line after the first is never empty, a line of two or more words fits, and each line starts with a word that did not fit on the line before |
| `Wrap.WrapFromFlatten` | playing_card.py:174-183 | no word is lost, added or reordered: the lines hold the finished lines, the current line and the remaining words |
| `Wrap.WrapFromPrefix` | playing_card.py:174-183 | lines already finished are never changed |
| `Wrap.WrapFromNoEmpty` | playing_card.py:174-183 | once the current line holds a word, no empty line is emitted |
| `Wrap.WrapFromWords` | playing_card.py:170-183 | every line is made of words (non-empty, no whitespace) when the input is; that they are the question's words, in order, is `Wrap.WrapFromFlatten` |
| `Wrap.EmptyFirstLine` | playing_card.py:172-183 | the first line is empty exactly when there is a first word and it alone is wider than `max_width` |
| `Wrap.WrapLinesFacts` | playing_card.py:170-183 | from the line groups to the line strings: word order, width bound and the empty-line rule |
| `Wrap.WrapLinesFit` | playing_card.py:167-183 | when every word alone measures at most `card_width - 20`, no line is empty and every line measures at most `card_width - 20` |
| `Wrap.JoinWidth` | playing_card.py:175-176 | for a text width that grows with the text, no word is wider than a line that holds it |
| `Wrap.OverwideWordAlone` | playing_card.py:174-183 | for a text width that grows with the text, a word wider than `card_width - 20` stands alone on its line |
| `Wrap.OverwideWordExample` | playing_card.py:174-183 | a word wider than the limit comes after an empty first line and stands alone on its line, unsplit and unchecked |
| `Wrap.PlaceLines` | playing_card.py:185-194 | each line is centred horizontally on the card; baselines are 12 pt apart from top to bottom; the text block is centred vertically |
| `Settings.CoerceCount` | playing_card.py:242-253 | a blank entry gives 50; a non-positive one is asked again; an accepted count is positive and even, and is the entry or the entry plus one |
| `Settings.CoercedCountBuildsDeck` | playing_card.py:245-265 | a count accepted by the prompt never hits the odd-total error: with both lists loaded it builds a deck of exactly that size |
| `Settings.NormalizeFilename` | playing_card.py:272-276 | the name always ends in ".pdf"; a blank entry gives "truth_or_dare.pdf"; a name already ending in ".pdf" is kept, any other gets ".pdf" appended |
| `Settings.NormalizeFilenameIdempotent` | playing_card.py:272-276 | typing back a produced name gives the same name |

## Left out

- Reading the question files (`read_questions_from_file`, lines 12-22) is file I/O. So are the UTF-8 and missing-file errors.
- The interactive prompts (`choose_paper_size`, `get_card_dimensions`, the input loops of `main`) read from a terminal. Only the count rule and the file-name rule are modelled, each on the value parsed from one typed line. The existence and overwrite check of the output file uses the file system and is left out.
- All reportlab canvas calls are left out: rectangles, separator lines, colours, fonts, the emoji titles and their centring, the footer position, `showPage` and `save`. So are the messages `draw_cards_to_pdf` prints: the too-small warning (lines 111-112), "Generating … pages" (line 125) and the success lines (212-213). Only the layout decisions are modelled: the slots, the footers' numbers, the wrapped lines and their positions.
- `random.sample` and `random.shuffle` are modelled as arbitrary valid choices, not as probability distributions. Fairness and uniformity are not modelled.
- Floating-point rounding of the dimensions, of `//` and of `stringWidth` is not modelled: lengths are exact reals and text width is an arbitrary function.
- Float overflow is not modelled, in either direction:
  - A very large finite entry, such as `1e307` inches, overflows to `inf` in `width * inch` at line 88. That card then takes the infinite-side path below.
  - A very small positive side, such as `1e-308` inches, makes `available_width // card_width` overflow to `inf`. `int(inf)` at line 106 then raises `OverflowError`, which the handler at line 215 prints. The model computes a very large finite grid instead.
- NaN and infinite card sides are not modelled, because the model's lengths are reals. Python's `float()` accepts "nan" and "inf" (lines 79 and 82), and neither is caught by the `<= 0` check at line 84:
  - For a NaN side, `int(available // nan)` at lines 106-107 raises `ValueError`, which the handler at line 215 prints, and no PDF is produced.
  - For an infinite side, `available // inf` is 0, so the fallback at lines 110-119 cuts that side to the printable length, giving one card along that axis.
- The exception handlers that print a message and the `KeyboardInterrupt`/`finally` handling of the entry point are left out.
- `Layout.ComputeGrid`: requires a positive printable area and positive, finite card sides. The three offered paper sizes always leave a printable area (`Layout.StandardSizesPrintable`), and for finite input `get_card_dimensions` (lines 77-90) gives positive sides. The division by zero or endless loop a zero or negative printable area would cause is not modelled.
- `Pagination.Paginate`: takes the deck's length, not the cards. The category title a card gets from its tag is drawing, left out with the canvas.
- `Pagination.Paginate`: what reportlab writes for an empty deck (no page was shown before `save`) is not modelled. The model emits no slots and no footers.
