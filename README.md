# easyChat's WechatGUI window, modelled in Dafny

easyChat sends scheduled WeChat messages. Its PyQt window (`wechat_gui.py`)
keeps three lists:

- the **contacts**, with rows `"<n>:<name>"`;
- the **message queue**, with rows `"<rank>:<text|at|file>:<to>:<payload>"`;
- the **schedules**, with rows `"y m d h min st-ed"`.

It also holds two flags of the clock thread:

- `time_counting`, whether scheduled sending is armed;
- `prevent_offline`, the keep-alive switch.

This project models what the window's buttons do to that state:

- adding rows;
- deleting the selected rows and renumbering the survivors 1..n;
- expanding a schedule's comma-separated alternatives into one row per combination (`itertools.product` order);
- filtering contacts by a case-insensitive substring;
- arming, disarming and toggling the flags;
- the check mark on the language radio buttons;
- the data half of saving and loading `config.json`.

Files:

- `strings.dfy` (module `Strings`): the Python string operations the code relies on:
  - `strip` with the full `str.isspace` set;
  - `split` on one character;
  - `split(sep, 1)[1]`;
  - ASCII `lower`;
  - the `in` substring test;
  - `endswith`;
  - `f"{n}"`, with the parser that inverts it.
- `widgets.dfy` (module `Widgets`): a `QListWidget` as a class over a sequence of rows. Each row has text, a selected flag and a hidden flag. The class has `addItem`, `takeItem`, `setText`, `setHidden`, `clear`, and the shared delete-selected loop.
- `rows.dfy` (module `Rows`): the row formats and how they are rebuilt. Includes:
  - a parser for message rows, as the partner of the formatter;
  - the cartesian product and its indexing;
  - the filter relation;
  - the radio-label marks;
  - the rows a config load keeps.
- `gui.dfy` (module `Gui`): the window. It is a class holding the three list widgets, a `Clock` holding the two flags, and the WeChat path. Each button handler is a method whose contract gives the new state as a function of the old.

Dialog results are parameters:

- `accepted` is whether the dialog was accepted.
- The entered strings are passed as they are.

Message boxes are left out. The error paths of the source are modelled:

- the rejected schedule dialog;
- the three refusal outcomes of "start";
- the keys missing from the configuration.

Renumbering rewrites each row from its old text:

- **Renumbering a contact row** keeps only the text between its first and second colon (`split(':')[1]`), so a name that contains a colon is cut at that colon. `RenumberContactRow` proves this.
- **Renumbering a message row** keeps everything after the first colon (`split(':', 1)[1]`).

## Model

| member | source | states |
|---|---|---|
| Strings.StripLeft | wechat_gui.py:97 | the leading part of `strip`: the result is a suffix of the input, everything dropped is white space, and the result does not start with white space |
| Strings.StripRight | wechat_gui.py:97 | the trailing part of `strip`: the result is a prefix, everything dropped is white space, and the result does not end with white space |
| Strings.Strip | wechat_gui.py:97 | `str.strip()`: lstrip then rstrip (its meaning is stated by StripSpec) |
| Strings.StripSpec | wechat_gui.py:97 | `str(name).strip()`: the result is the slice of the input framed by white space on both sides, and neither starts nor ends with white space |
| Strings.Split | wechat_gui.py:94 | `split(',')`: at least one piece, and two or more exactly when the separator occurs |
| Strings.SplitPieces | wechat_gui.py:94 | no piece of a split holds the separator |
| Strings.SplitJoinBack | wechat_gui.py:94 | joining the pieces of a split with the separator gives the input back |
| Strings.SplitCount | wechat_gui.py:94 | split yields one more piece than the separator has occurrences |
| Strings.SplitConcat | wechat_gui.py:108 | a leading field without colon followed by a colon is split off as the first piece |
| Strings.SplitNone | wechat_gui.py:108 | a string without the separator splits into itself alone |
| Strings.SplitJoin | wechat_gui.py:228-232 | split inverts join when no piece holds the separator (split is fully determined) |
| Strings.FirstIndex | wechat_gui.py:417 | the first colon: it is in range, it is a colon, and no colon comes before it |
| Strings.FirstIndexOf | wechat_gui.py:417 | the first colon of `a + ":" + b` is right after `a` when `a` has no colon |
| Strings.AfterFirst | wechat_gui.py:417 | `split(':', 1)[1]`: the text after the first colon (its meaning is stated by AfterFirstOf and AfterFirstIsSplitTail) |
| Strings.AfterFirstOf | wechat_gui.py:417 | `split(':', 1)[1]` of `a + ":" + b` is `b` when `a` has no colon |
| Strings.AfterFirstIsSplitTail | wechat_gui.py:417 | `split(':', 1)[1]` is the remaining pieces of `split(':')` joined back with colons |
| Strings.Lower | wechat_gui.py:189 | `lower()` keeps the length and lowers each ASCII letter in place |
| Strings.LowerIdempotent | wechat_gui.py:189 | lowering twice is lowering once |
| Strings.Contains | wechat_gui.py:189 | Python's `p in s`, checked offset by offset (its meaning is stated by ContainsIff) |
| Strings.ContainsIff | wechat_gui.py:189 | the substring test holds exactly when the query is the slice of the text at some offset (both directions) |
| Strings.OccursShift | wechat_gui.py:189 | an occurrence in the text without its first character is an occurrence in the text one place further on, and back |
| Strings.ContainsEmpty | wechat_gui.py:189 | the empty query occurs in every text |
| Strings.EndsWith | wechat_gui.py:579 | `str.endswith`: the text's last characters are the suffix; used for the mark test at lines 579 and 585 |
| Strings.NatToString | wechat_gui.py:96 | `f"{n}"` is decimal digits with no leading zero except for 0 itself |
| Strings.ParseNatToString | wechat_gui.py:96 | reading back the digits of n gives n |
| Strings.NatToStringInjective | wechat_gui.py:106-108 | distinct numbers get distinct row numbers |
| Strings.NoSepInNumber | wechat_gui.py:96 | a row number never contains a colon |
| Widgets.TextsOfFresh | wechat_gui.py:812-814 | rows added by `addItem` have exactly the texts they were added with |
| Widgets.Unselected | wechat_gui.py:102-104 | the rows the delete loop leaves: the unselected ones, in order (stated by UnselectedCount, UnselectedAt and the KeptPositions lemmas) |
| Widgets.UnselectedCount | wechat_gui.py:102-104 | the rows left after deleting the selected ones: their count is the row count minus the selected count, and none is selected |
| Widgets.KeptPositions | wechat_gui.py:102-104 | there is one kept position per surviving row |
| Widgets.KeptPositionsInRange | wechat_gui.py:102-104 | every kept position lies within the list |
| Widgets.KeptPositionsUnselected | wechat_gui.py:102-104 | every kept position names an unselected row |
| Widgets.KeptPositionsIncreasing | wechat_gui.py:102-104 | kept positions strictly increase, so the survivors keep their relative order |
| Widgets.KeptPositionsComplete | wechat_gui.py:102-104 | every unselected row is kept |
| Widgets.UnselectedAt | wechat_gui.py:102-104 | the k-th survivor is the row at the k-th kept position |
| Widgets.ListWidget.AddItem | wechat_gui.py:97 | `addItem` appends one unselected, shown row |
| Widgets.ListWidget.TakeItem | wechat_gui.py:104 | `takeItem(i)` removes row i and shifts the later rows up |
| Widgets.ListWidget.SetText | wechat_gui.py:108 | `setText` changes row i's text only |
| Widgets.ListWidget.SetHidden | wechat_gui.py:190-192 | `setHidden` changes row i's hidden flag only |
| Widgets.ListWidget.Clear | wechat_gui.py:811 | `clear` empties the list |
| Widgets.ListWidget.TakeSelected | wechat_gui.py:102-104 | the backward delete loop leaves exactly the unselected rows, in order |
| Rows.ContactRow | wechat_gui.py:97 | the contact row `f"{id}:{name}"` (read back by ContactRowFields) |
| Rows.ContactRows | wechat_gui.py:94-97 | the rows add_contact appends, one per comma-separated piece, stripped and numbered on from the count (stated by AddContactRows) |
| Rows.ContactRowFields | wechat_gui.py:96-97 | a contact row holds a colon; its first field is the number's digits and parses to the number; everything after the first colon is the name |
| Rows.AddContactRows | wechat_gui.py:91-97 | add_contact appends one row per comma-separated piece (occurrences of ',' plus one); row k is numbered base + k + 1 and holds piece k stripped |
| Rows.RenumberedContact | wechat_gui.py:108 | the renumbered contact row `f"{i+1}:{text.split(':')[1]}"` (stated by RenumberContactRow) |
| Rows.RenumberContacts | wechat_gui.py:106-108 | the renumbering loop of del_contact applied to every row (stated by ContactsDense) |
| Rows.RenumberContactRow | wechat_gui.py:106-108 | renumbering a contact row sets the new number and keeps the name up to its first colon; a name without colon is kept whole |
| Rows.UnselectedHaveColon | wechat_gui.py:100-108 | when every unselected row holds a colon, every survivor of the delete loop does |
| Rows.SurvivorAt | wechat_gui.py:100-108 | the k-th survivor of a deletion is the unselected row at the k-th kept position, and it holds a colon |
| Rows.DeleteContacts | wechat_gui.py:100-108 | del_contact: delete the selected rows, then renumber (stated by DeleteContactsAt) |
| Rows.DeleteContactsAt | wechat_gui.py:100-108 | del_contact leaves as many rows as were unselected; row k is the k-th kept row, numbered k + 1, with that row's second field |
| Rows.ContactsDense | wechat_gui.py:106-108 | after renumbering, row k's first field is k + 1 (so numbers are dense 1..n); its text after the first colon is the old second field; flags unchanged |
| Rows.KindOfTag | wechat_gui.py:395-406 | the tag maps to a kind exactly when that kind's tag is the text (both directions) |
| Rows.SplitHead | wechat_gui.py:395-406 | the first piece of `a + ":" + t` is `a` and the other pieces are those of `t`, when `a` has no colon |
| Rows.SplitFourFields | wechat_gui.py:395-406 | a row of four colon-separated fields whose first three hold no colon splits into those three, and the remaining pieces join back to the fourth |
| Rows.FormatMessage | wechat_gui.py:395-397 | the queued row `f"{rank}:{kind}:{to}:{payload}"`, also built at line 406 (inverted by ParseFormatMessage) |
| Rows.ParseFormatMessage | wechat_gui.py:395-406 | a queued row `"<rank>:<kind>:<to>:<payload>"` parses back to the same message when the target has no colon; the payload may hold colons |
| Rows.Target | wechat_gui.py:388 | an empty target means "all", as at line 404 as well (stated by TextMessageRoundTrip and FileMessageRoundTrip) |
| Rows.TextMessage | wechat_gui.py:394-397 | the item add_text queues: a mention with the text after "at:" when the text starts with "at:", otherwise a text item (stated by TextMessageRoundTrip) |
| Rows.FileMessage | wechat_gui.py:406 | the file item add_file queues (stated by FileMessageRoundTrip) |
| Rows.TextMessageRoundTrip | wechat_gui.py:387-397 | the row add_text queues parses back to the rank and the target ("all" for an empty one); it is a mention exactly when the text starts with "at:"; the entered text is recovered, when the target has no colon |
| Rows.FileMessageRoundTrip | wechat_gui.py:403-406 | the row add_file queues parses back to a file item with that rank, target and path, when the target has no colon |
| Rows.RenumberedMessage | wechat_gui.py:417 | the renumbered message row `f"{i+1}:" + text.split(':', 1)[1]` (stated by RenumberMessageRow) |
| Rows.RenumberMessages | wechat_gui.py:416-417 | the renumbering loop of del_content applied to every row (stated by MessagesDense) |
| Rows.RenumberMessageRow | wechat_gui.py:416-417 | renumbering a message row changes its rank and nothing else |
| Rows.DeleteMessages | wechat_gui.py:409-417 | del_content: delete the selected rows, then renumber (stated by DeleteMessagesAt) |
| Rows.DeleteMessagesAt | wechat_gui.py:409-417 | del_content leaves as many rows as were unselected; row k is the k-th kept row renumbered to k + 1; a well-formed item keeps kind, target and payload |
| Rows.MessagesDense | wechat_gui.py:416-417 | after renumbering, row k's first field is k + 1; its text after the first colon is unchanged; flags unchanged |
| Rows.ProductWith | wechat_gui.py:234 | one level of the product has length \|l\| · \|rest\| |
| Rows.Product | wechat_gui.py:234 | `itertools.product` yields the product of the lengths as its count, each tuple one element per list |
| Rows.ProductWithLengths | wechat_gui.py:234 | every tuple of one level is one element longer than the tuples below it |
| Rows.MulStep | wechat_gui.py:234 | a mixed-radix digit step stays below the next radix |
| Rows.ProductWithAt | wechat_gui.py:234 | the combination of element i with tuple k sits at position i · \|rest\| + k |
| Rows.ProductAt | wechat_gui.py:234 | every pick of one element per list appears in the product at its lexicographic rank, last list fastest |
| Rows.RankOfFive | wechat_gui.py:234 | for five lists the count and rank are written out as sums of products |
| Rows.Unrank | wechat_gui.py:234 | the pick at every position of the product: it is a pick, and its rank is that position |
| Rows.UnrankRank | wechat_gui.py:234 | unranking a pick's rank gives the pick back, so no two picks share a position: with Unrank, the product lists each combination exactly once |
| Rows.ProductEntry | wechat_gui.py:234 | every entry of the product is the tuple of the pick its position unranks to |
| Rows.ScheduleLine | wechat_gui.py:235 | the schedule row `f"{year} {month} {day} {hour} {min} {st}-{ed}"` (stated by ScheduleRowsAt) |
| Rows.ScheduleFields | wechat_gui.py:228-232 | the comma-separated alternatives of the five date and time fields |
| Rows.ScheduleRows | wechat_gui.py:234-236 | one schedule line per combination, in `itertools.product` order (stated by ScheduleRowsAt) |
| Rows.AllFilled | wechat_gui.py:223 | the schedule dialog's seven fields are all non-empty (used by AddSchedule's contract) |
| Rows.ScheduleRowAtPick | wechat_gui.py:234-236 | the schedule row at a pick's rank is the line for that pick |
| Rows.ScheduleRowsAt | wechat_gui.py:227-236 | the schedule dialog appends \|years\|·\|months\|·\|days\|·\|hours\|·\|minutes\| rows; the row for alternatives (i0..i4) sits at their lexicographic index and reads "y m d h min st-ed" |
| Rows.ScheduleRowsRange | wechat_gui.py:235 | every added schedule row ends with the same " st-ed" |
| Rows.Filtered | wechat_gui.py:187-192 | the contact list after filtering (stated by FilterSpec) |
| Rows.FilterSpec | wechat_gui.py:186-192 | filtering keeps texts and selection; a row is hidden exactly when the lower-cased query occurs nowhere in its lower-cased text |
| Rows.FilterEmptyShowsAll | wechat_gui.py:186-192 | an empty query shows every contact |
| Rows.FilterCaseAndRepeat | wechat_gui.py:186-192 | the query's case does not matter, and filtering twice is filtering once |
| Rows.Marked | wechat_gui.py:579-580 | the label with the " ✔" mark added unless it already ends with it (stated by RadioMarks) |
| Rows.Unmarked | wechat_gui.py:585-586 | the label with one trailing " ✔" removed when it ends with it (stated by RadioMarks) |
| Rows.RadioMarks | wechat_gui.py:576-586 | the chosen label ends with one " ✔"; another label ends with none; labels keep at most one mark; repeating the update changes nothing; unmarking undoes marking |
| Rows.NonEmpty | wechat_gui.py:812-814 | a load keeps no more rows than it reads, and none of them empty |
| Rows.NonEmptyKeepsAll | wechat_gui.py:812-814 | without empty strings a load keeps every row |
| Rows.NonEmptyDrops | wechat_gui.py:812-814 | an empty string in the file is dropped |
| Rows.NonEmptySnoc | wechat_gui.py:812-814 | reading one more string keeps it exactly when it is not empty |
| Gui.Clock.constructor | wechat_gui.py:23 | the clock the window creates starts disarmed with keep-alive off, as the "not started" status label (line 300) and the unchecked keep-alive box (line 638) show |
| Gui.WechatGui.constructor | wechat_gui.py:20-30 | the window starts with a fresh clock with both flags off, an empty path, and three distinct, fresh, empty lists (created at lines 119, 305 and 448; the contact list is filled from the empty `self.contacts`) |
| Widgets.ListWidget.constructor | wechat_gui.py:119 | a new list widget has no rows |
| Gui.RadioButton.constructor | wechat_gui.py:538-548 | a radio button holds the label it is created with |
| Gui.WechatGui.AddContact | wechat_gui.py:91-97 | for an accepted, non-empty input, the contact rows of the comma-separated names are appended, numbered on from the current count; otherwise nothing changes |
| Gui.WechatGui.AppendContacts | wechat_gui.py:94-97 | the loop over the names appends their contact rows, numbered on from the current count, and nothing else |
| Gui.WechatGui.RenumberContactRows | wechat_gui.py:106-108 | the renumbering loop turns the list into its rows renumbered 1..n, keeping each row's second field |
| Gui.WechatGui.DelContact | wechat_gui.py:100-108 | the list becomes the unselected rows renumbered 1..n |
| Gui.WechatGui.FilterContacts | wechat_gui.py:186-192 | the list becomes the filtered list |
| Gui.WechatGui.AddSchedule | wechat_gui.py:220-236 | an accepted dialog with an empty field is rejected and changes nothing; an accepted, filled one appends the product rows in order; a cancelled one changes nothing |
| Gui.WechatGui.DelSchedule | wechat_gui.py:239-242 | the schedule list becomes its unselected rows, in order, not renumbered |
| Gui.WechatGui.AddText | wechat_gui.py:380-397 | for an accepted, non-empty text, the formatted text or mention item of rank count + 1 is appended; otherwise nothing changes |
| Gui.WechatGui.AddFile | wechat_gui.py:400-406 | for an accepted, non-empty path, the formatted file item of rank count + 1 is appended |
| Gui.WechatGui.RenumberMessageRows | wechat_gui.py:416-417 | the renumbering loop turns the queue into its rows renumbered 1..n, keeping everything after each row's first colon |
| Gui.WechatGui.DelContent | wechat_gui.py:409-417 | the queue becomes the unselected rows renumbered 1..n |
| Gui.WechatGui.StartCounting | wechat_gui.py:245-256 | refused with an empty queue, else with an empty schedule list, else a no-op while armed; otherwise arms; keep-alive unchanged |
| Gui.WechatGui.EndCounting | wechat_gui.py:263-264 | disarms, whatever the state; keep-alive unchanged |
| Gui.WechatGui.TogglePreventOffline | wechat_gui.py:672-682 | the keep-alive flag flips; arming unchanged |
| Gui.WechatGui.ToggleTwiceStopTwice | wechat_gui.py:263-264 | toggling keep-alive twice restores it; stopping is idempotent |
| Gui.WechatGui.UpdateRadioLabels | wechat_gui.py:576-586 | the chosen label gets the mark (once); every other label loses one trailing mark |
| Gui.WechatGui.CollectTexts | wechat_gui.py:763-777 | the save loops copy every row's text, in order |
| Gui.WechatGui.SaveConfig | wechat_gui.py:754-783 | every key is written: the path, the three lists' texts, and the keep-alive flag |
| Gui.WechatGui.Reload | wechat_gui.py:809-830 | a list whose key is present is cleared and refilled with the non-empty strings, in order |
| Gui.WechatGui.LoadConfig | wechat_gui.py:801-836 | a present, non-empty path is taken; each present list is replaced by its non-empty strings, and an absent one is kept; a present keep-alive flag is taken; arming is unchanged |
| Gui.WechatGui.SaveThenLoad | wechat_gui.py:754-836 | saving then loading restores every list's texts, the path and both flags, when no row is empty |

## Left out

- The Qt widgets' appearance, layouts, styles and message boxes, and the status label of the clock tab. Dialog results are parameters of the methods.
- The global hotkey registration and its handler.
- Every call into the WeChat automation backend: `send_msg`, opening WeChat, choosing the path, and the `MessageSenderThread` and `ClockThread` threads. Their code is not part of this model; the clock is reduced to its two flags.
- `Gui.Clock.constructor`: the clock thread's initial flag values are not in the modelled code. The model takes both flags to start false.
- File and JSON I/O in `save_config`/`load_config`. The file-missing error, the exception path, and the CSV import and export are also left out. A configuration is a value whose absent keys are `None`.
- `load_contacts` and `load_text`, which append rows read from the configuration file.
- The current-time defaults of the schedule dialog (`time.localtime`). They only pre-fill the dialog's fields, which are parameters here.
- The `prevent_offline` closure nested inside `init_clock` (wechat_gui.py:269-282). It is never connected to a button.
- `Strings.Lower`: only ASCII letters are lowered. Python's `str.lower` also folds non-ASCII letters.
- `Gui.WechatGui.DelContact`: requires that every unselected row contains a colon. On a row without one, Python's `split(':')[1]` raises IndexError and stops the loop part-way. That partial state is not modelled.
- `Gui.WechatGui.RenumberContactRows`: requires every row to contain a colon, for the same reason as `DelContact`.
- `Gui.WechatGui.RenumberMessageRows`: requires every row to contain a colon, for the same reason as `DelContent`.
- `Gui.WechatGui.DelContent`: requires that every unselected row contains a colon. On a row without one, `split(':', 1)[1]` raises IndexError. That partial state is not modelled.
- `Gui.WechatGui.UpdateRadioLabels`: requires the buttons to be distinct objects. The source passes at most three distinct buttons.
- `Gui.WechatGui.LoadConfig`: JSON values are typed. A list holds strings and the flag is a boolean, so ill-typed configuration files are not modelled.
