/**
 The texts the GUI stores in its three lists and how they are built and
 rewritten: contact rows "<n>:<name>", message rows
 "<rank>:<kind>:<to>:<payload>", schedule rows "y m d h min st-ed" (one per
 combination of the comma-separated alternatives), the contact filter, the
 check mark on the language radio buttons, and the rows a config load keeps.
 */
module Rows {
  import opened Strings
  import opened Widgets

  datatype Option<T> = None | Some(value: T)

  // ---------------------------------------------------------------- contacts

  /** f"{id}:{name}" */
  function ContactRow(id: nat, name: string): string {
    NatToString(id) + ":" + name
  }

  /** The rows add_contact appends for the comma-separated pieces `names`,
      numbered from base + 1 upward. */
  function ContactRows(base: nat, names: seq<string>): seq<string> {
    seq(|names|, k requires 0 <= k < |names| => ContactRow(base + k + 1, Strip(names[k])))
  }

  /** A contact row reads back as its number and its name. */
  lemma ContactRowFields(id: nat, name: string)
    ensures ':' in ContactRow(id, name)
    ensures Split(ContactRow(id, name), ':')[0] == NatToString(id)
    ensures ParseDigits(Split(ContactRow(id, name), ':')[0]) == id
    ensures AfterFirst(ContactRow(id, name), ':') == name
  {
    NoSepInNumber(id, ':');
    SplitConcat(NatToString(id), ':', name);
    AfterFirstOf(NatToString(id), ':', name);
    ParseNatToString(id);
  }

  /** add_contact on a non-empty input: one row per comma-separated piece, in
      order; row k is numbered base + k + 1 and holds piece k stripped. */
  lemma AddContactRows(base: nat, nameList: string, k: nat)
    requires k < |Split(nameList, ',')|
    ensures var rows := ContactRows(base, Split(nameList, ','));
      |rows| == Occurrences(nameList, ',') + 1
      && ':' in rows[k]
      && Split(rows[k], ':')[0] == NatToString(base + k + 1)
      && ParseDigits(Split(rows[k], ':')[0]) == base + k + 1
      && AfterFirst(rows[k], ':') == Strip(Split(nameList, ',')[k])
  {
    SplitCount(nameList, ',');
    var names := Split(nameList, ',');
    var row := ContactRows(base, names)[k];
    assert row == ContactRow(base + k + 1, Strip(names[k]));
    ContactRowFields(base + k + 1, Strip(names[k]));
  }

  /** del_contact's renumbering: f"{n}:{text.split(':')[1]}", which keeps
      only the field between the first and second colon. */
  function RenumberedContact(n: nat, text: string): string
    requires ':' in text
  {
    NatToString(n) + ":" + Split(text, ':')[1]
  }

  /** Renumbering a contact row keeps its name up to the name's first colon;
      a name without colon is kept whole. */
  lemma RenumberContactRow(id: nat, n: nat, name: string)
    ensures ':' in ContactRow(id, name)
    ensures RenumberedContact(n, ContactRow(id, name)) == ContactRow(n, Split(name, ':')[0])
    ensures ':' !in name ==> RenumberedContact(n, ContactRow(id, name)) == ContactRow(n, name)
  {
    NoSepInNumber(id, ':');
    SplitConcat(NatToString(id), ':', name);
    if ':' !in name {
      SplitNone(name, ':');
    }
  }

  /** The renumbering loop of del_contact applied to the surviving rows. */
  function RenumberContacts(items: seq<Item>): seq<Item>
    requires forall k :: 0 <= k < |items| ==> ':' in items[k].text
  {
    seq(|items|, k requires 0 <= k < |items| => items[k].(text := RenumberedContact(k + 1, items[k].text)))
  }

  /** Every row that survives a deletion holds a colon: the condition under
      which the renumbering loops of del_contact and del_content do not raise. */
  predicate KeptHaveColon(items: seq<Item>) {
    forall i :: 0 <= i < |items| && !items[i].selected ==> ':' in items[i].text
  }

  /** The rows a deletion keeps then all hold a colon. */
  lemma UnselectedHaveColon(items: seq<Item>)
    requires KeptHaveColon(items)
    ensures forall k :: 0 <= k < |Unselected(items)| ==> ':' in Unselected(items)[k].text
  {
    forall k | 0 <= k < |Unselected(items)| ensures ':' in Unselected(items)[k].text {
      UnselectedAt(items, 0, k);
      KeptPositionsUnselected(items, 0, k);
    }
  }

  /** The k-th row left by a deletion is the unselected row at the k-th kept
      position, and it holds a colon. */
  lemma SurvivorAt(items: seq<Item>, k: nat)
    requires KeptHaveColon(items) && k < |Unselected(items)|
    ensures var p := KeptPositions(items, 0)[k];
      p < |items| && !items[p].selected && ':' in items[p].text && Unselected(items)[k] == items[p]
  {
    UnselectedAt(items, 0, k);
    KeptPositionsUnselected(items, 0, k);
  }

  /** del_contact: the selected rows go, the rest are renumbered. */
  function DeleteContacts(items: seq<Item>): seq<Item>
    requires KeptHaveColon(items)
  {
    UnselectedHaveColon(items);
    RenumberContacts(Unselected(items))
  }

  /** After del_contact the list holds one row per unselected row, in order:
      row k comes from the k-th kept position, is unselected, and carries the
      number k + 1 and that row's second field. */
  lemma {:induction false} DeleteContactsAt(items: seq<Item>, k: nat)
    requires KeptHaveColon(items) && k < |DeleteContacts(items)|
    ensures |DeleteContacts(items)| == |items| - SelectedCount(items)
    ensures var p := KeptPositions(items, 0)[k];
      p < |items| && !items[p].selected && ':' in items[p].text
      && DeleteContacts(items)[k] == items[p].(text := RenumberedContact(k + 1, items[p].text))
  {
    UnselectedHaveColon(items);
    UnselectedCount(items);
    SurvivorAt(items, k);
  }

  /** After renumbering, row k carries the number k + 1 and the old second
      field, and keeps its flags. */
  lemma ContactsDense(items: seq<Item>, k: nat)
    requires forall k :: 0 <= k < |items| ==> ':' in items[k].text
    requires k < |items|
    ensures |RenumberContacts(items)| == |items|
    ensures var t := RenumberContacts(items)[k].text;
      ':' in t
      && Split(t, ':')[0] == NatToString(k + 1)
      && ParseDigits(Split(t, ':')[0]) == k + 1
      && AfterFirst(t, ':') == Split(items[k].text, ':')[1]
    ensures RenumberContacts(items)[k].selected == items[k].selected
    ensures RenumberContacts(items)[k].hidden == items[k].hidden
  {
    ContactRowFields(k + 1, Split(items[k].text, ':')[1]);
  }

  // ---------------------------------------------------------------- messages

  /** The three kinds of queued item: plain text, a mention, a file. */
  datatype Kind = Text | At | File

  function KindTag(k: Kind): string {
    match k
    case Text => "text"
    case At => "at"
    case File => "file"
  }

  function KindOfTag(tag: string): (r: Option<Kind>)
    ensures forall k: Kind :: r == Some(k) <==> KindTag(k) == tag
  {
    if tag == "text" then Some(Text) else if tag == "at" then Some(At)
    else if tag == "file" then Some(File) else None
  }

  /** A queued message: its rank in the list, its kind, its target ("all" or a
      comma-separated list of contact numbers) and its payload. */
  datatype Message = Message(rank: nat, kind: Kind, target: string, payload: string)

  /** f"{rank}:{kind}:{to}:{payload}" */
  function FormatMessage(m: Message): string {
    NatToString(m.rank) + ":" + (KindTag(m.kind) + ":" + (m.target + ":" + m.payload))
  }

  /** Reads a message row back: split on the first three colons; the rank must
      be decimal digits and the kind one of the three tags. */
  function ParseMessage(row: string): Option<Message> {
    var f := Split(row, ':');
    if |f| < 4 || !IsDigits(f[0]) then None
    else match KindOfTag(f[1])
      case None => None
      case Some(k) => Some(Message(ParseDigits(f[0]), k, f[2], Join(f[3..], ':')))
  }

  /** Splitting "a:b:c:d" on ':' gives a, b and c as the first three pieces
      and the rest joins back to d, when a, b and c hold no colon. */
  lemma SplitFourFields(a: string, b: string, c: string, d: string)
    requires ':' !in a && ':' !in b && ':' !in c
    ensures var f := Split(a + ":" + (b + ":" + (c + ":" + d)), ':');
      |f| >= 4 && f[0] == a && f[1] == b && f[2] == c && Join(f[3..], ':') == d
  {
    var t3 := c + ":" + d;
    var t2 := b + ":" + t3;
    SplitHead(a, t2);
    SplitHead(b, t3);
    SplitHead(c, d);
    SplitJoinBack(d, ':');
    var f := Split(a + ":" + t2, ':');
    assert f[3..] == f[1..][1..][1..];
  }

  /** The first piece of "a:t" is a and the other pieces are those of t. */
  lemma SplitHead(a: string, t: string)
    requires ':' !in a
    ensures |Split(a + ":" + t, ':')| >= 2
    ensures Split(a + ":" + t, ':')[0] == a && Split(a + ":" + t, ':')[1..] == Split(t, ':')
  {
    SplitConcat(a, ':', t);
  }

  /** Formatting then parsing gives the message back; the payload may hold
      colons, the target may not (it ends at the third colon). */
  lemma ParseFormatMessage(m: Message)
    requires ':' !in m.target
    ensures ParseMessage(FormatMessage(m)) == Some(m)
  {
    NoSepInNumber(m.rank, ':');
    assert ':' !in KindTag(m.kind);
    SplitFourFields(NatToString(m.rank), KindTag(m.kind), m.target, m.payload);
    ParseNatToString(m.rank);
    assert KindOfTag(KindTag(m.kind)) == Some(m.kind);
  }

  /** add_text/add_file: an empty target means everybody. */
  function Target(to: string): string {
    if to == "" then "all" else to
  }

  /** The item add_text queues for a non-empty text: text whose first three
      characters are "at:" (Python's text[:3] == "at:") is a mention of the
      rest, anything else is plain text. */
  function TextMessage(rank: nat, to: string, text: string): Message {
    if StartsWith(text, "at:") then Message(rank, At, Target(to), text[3..])
    else Message(rank, Text, Target(to), text)
  }

  /** The item add_file queues for a non-empty path. */
  function FileMessage(rank: nat, to: string, path: string): Message {
    Message(rank, File, Target(to), path)
  }

  /** The text the user entered, recovered from a queued text or mention item. */
  function EnteredText(m: Message): string {
    if m.kind == At then "at:" + m.payload else m.payload
  }

  /** The row add_text appends parses back to its rank, its target, a mention
      exactly when the text starts with "at:", and the entered text. */
  lemma TextMessageRoundTrip(rank: nat, to: string, text: string)
    requires ':' !in to
    ensures var p := ParseMessage(FormatMessage(TextMessage(rank, to, text)));
      p.Some? && p.value.rank == rank && p.value.target == Target(to)
      && (p.value.kind == At <==> StartsWith(text, "at:"))
      && (p.value.kind == At || p.value.kind == Text)
      && EnteredText(p.value) == text
  {
    var m := TextMessage(rank, to, text);
    assert ':' !in Target(to);
    ParseFormatMessage(m);
    if StartsWith(text, "at:") {
      assert text == text[..3] + text[3..];
    }
  }

  /** The row add_file appends parses back to a file item with that path. */
  lemma FileMessageRoundTrip(rank: nat, to: string, path: string)
    requires ':' !in to
    ensures ParseMessage(FormatMessage(FileMessage(rank, to, path)))
         == Some(Message(rank, File, Target(to), path))
  {
    assert ':' !in Target(to);
    ParseFormatMessage(FileMessage(rank, to, path));
  }

  /** del_content's renumbering: f"{n}:" + text.split(':', 1)[1]. */
  function RenumberedMessage(n: nat, text: string): string
    requires ':' in text
  {
    NatToString(n) + ":" + AfterFirst(text, ':')
  }

  /** Renumbering a message row changes its rank and nothing else. */
  lemma RenumberMessageRow(n: nat, m: Message)
    ensures ':' in FormatMessage(m)
    ensures RenumberedMessage(n, FormatMessage(m)) == FormatMessage(m.(rank := n))
  {
    var tail := KindTag(m.kind) + ":" + (m.target + ":" + m.payload);
    NoSepInNumber(m.rank, ':');
    AfterFirstOf(NatToString(m.rank), ':', tail);
  }

  /** The renumbering loop of del_content applied to the surviving rows. */
  function RenumberMessages(items: seq<Item>): seq<Item>
    requires forall k :: 0 <= k < |items| ==> ':' in items[k].text
  {
    seq(|items|, k requires 0 <= k < |items| => items[k].(text := RenumberedMessage(k + 1, items[k].text)))
  }

  /** del_content: the selected rows go, the rest are renumbered. */
  function DeleteMessages(items: seq<Item>): seq<Item>
    requires KeptHaveColon(items)
  {
    UnselectedHaveColon(items);
    RenumberMessages(Unselected(items))
  }

  /** After del_content the list holds one row per unselected row, in order:
      row k comes from the k-th kept position and is that row renumbered to
      k + 1; a well-formed item keeps its kind, target and payload. */
  lemma {:induction false} DeleteMessagesAt(items: seq<Item>, k: nat, m: Message)
    requires KeptHaveColon(items) && k < |DeleteMessages(items)|
    ensures |DeleteMessages(items)| == |items| - SelectedCount(items)
    ensures var p := KeptPositions(items, 0)[k];
      p < |items| && !items[p].selected && ':' in items[p].text
      && DeleteMessages(items)[k] == items[p].(text := RenumberedMessage(k + 1, items[p].text))
      && (items[p].text == FormatMessage(m) ==> DeleteMessages(items)[k].text == FormatMessage(m.(rank := k + 1)))
  {
    UnselectedHaveColon(items);
    UnselectedCount(items);
    SurvivorAt(items, k);
    var p := KeptPositions(items, 0)[k];
    if items[p].text == FormatMessage(m) {
      RenumberMessageRow(k + 1, m);
    }
  }

  /** After renumbering, row k carries the number k + 1, keeps everything after
      its first colon, and keeps its flags. */
  lemma MessagesDense(items: seq<Item>, k: nat)
    requires forall k :: 0 <= k < |items| ==> ':' in items[k].text
    requires k < |items|
    ensures |RenumberMessages(items)| == |items|
    ensures var t := RenumberMessages(items)[k].text;
      ':' in t
      && Split(t, ':')[0] == NatToString(k + 1)
      && ParseDigits(Split(t, ':')[0]) == k + 1
      && AfterFirst(t, ':') == AfterFirst(items[k].text, ':')
    ensures RenumberMessages(items)[k].selected == items[k].selected
    ensures RenumberMessages(items)[k].hidden == items[k].hidden
  {
    var rest := AfterFirst(items[k].text, ':');
    assert RenumberMessages(items)[k] == items[k].(text := ContactRow(k + 1, rest));
    ContactRowFields(k + 1, rest);
  }

  // --------------------------------------------------------------- schedules

  /** The number of combinations: the product of the lengths. */
  function Size<T>(lists: seq<seq<T>>): nat {
    if lists == [] then 1 else |lists[0]| * Size(lists[1..])
  }

  /** x in front of every tuple of ps. */
  function Prefixed<T>(x: T, ps: seq<seq<T>>): seq<seq<T>> {
    seq(|ps|, k requires 0 <= k < |ps| => [x] + ps[k])
  }

  /** Every element of l in front of every tuple of rest, l's element varying slowest. */
  function ProductWith<T>(l: seq<T>, rest: seq<seq<T>>): (r: seq<seq<T>>)
    ensures |r| == |l| * |rest|
  {
    if l == [] then [] else Prefixed(l[0], rest) + ProductWith(l[1..], rest)
  }

  /** itertools.product(*lists): all tuples, in lexicographic order of positions,
      the last list varying fastest. */
  function Product<T>(lists: seq<seq<T>>): (r: seq<seq<T>>)
    ensures |r| == Size(lists)
    ensures forall k :: 0 <= k < |r| ==> |r[k]| == |lists|
  {
    if lists == [] then [[]]
    else
      var rest := Product(lists[1..]);
      var r := ProductWith(lists[0], rest);
      assert forall k :: 0 <= k < |r| ==> |r[k]| == |lists| by {
        ProductWithLengths(lists[0], rest, |lists| - 1);
      }
      r
  }

  lemma {:induction false} ProductWithLengths<T>(l: seq<T>, rest: seq<seq<T>>, n: nat)
    requires forall k :: 0 <= k < |rest| ==> |rest[k]| == n
    ensures forall k :: 0 <= k < |ProductWith(l, rest)| ==> |ProductWith(l, rest)[k]| == n + 1
  {
    if l != [] {
      ProductWithLengths(l[1..], rest, n);
    }
  }

  /** idx picks one position in each list. */
  predicate IsPick<T>(lists: seq<seq<T>>, idx: seq<nat>) {
    |idx| == |lists| && forall j :: 0 <= j < |lists| ==> idx[j] < |lists[j]|
  }

  /** The elements idx picks. */
  function Picked<T>(lists: seq<seq<T>>, idx: seq<nat>): seq<T>
    requires IsPick(lists, idx)
  {
    seq(|lists|, j requires 0 <= j < |lists| => lists[j][idx[j]])
  }

  /** The place of a pick in lexicographic order (mixed radix, last position fastest). */
  function Rank<T>(lists: seq<seq<T>>, idx: seq<nat>): nat
    requires IsPick(lists, idx)
  {
    if lists == [] then 0 else idx[0] * Size(lists[1..]) + Rank(lists[1..], idx[1..])
  }

  lemma MulStep(i: nat, n: nat, k: nat, m: nat)
    requires i < m && k < n
    ensures i * n + k < m * n
  {
    assert i * n + k < i * n + n == (i + 1) * n;
    assert (i + 1) * n <= m * n;
  }

  lemma {:induction false} ProductWithAt<T>(l: seq<T>, rest: seq<seq<T>>, i: nat, k: nat)
    requires i < |l| && k < |rest|
    ensures i * |rest| + k < |ProductWith(l, rest)|
    ensures ProductWith(l, rest)[i * |rest| + k] == [l[i]] + rest[k]
  {
    MulStep(i, |rest|, k, |l|);
    if i > 0 {
      ProductWithAt(l[1..], rest, i - 1, k);
      assert i * |rest| + k == |rest| + ((i - 1) * |rest| + k);
    }
  }

  /** The tuple at a pick's rank is the picked tuple, and every rank is in range.
      With Unrank and UnrankRank below: the product lists each combination
      exactly once, in lexicographic order. */
  lemma {:induction false} ProductAt<T>(lists: seq<seq<T>>, idx: seq<nat>)
    requires IsPick(lists, idx)
    ensures Rank(lists, idx) < |Product(lists)|
    ensures Product(lists)[Rank(lists, idx)] == Picked(lists, idx)
  {
    if lists != [] {
      var tail, tidx := lists[1..], idx[1..];
      assert IsPick(tail, tidx);
      ProductAt(tail, tidx);
      ProductWithAt(lists[0], Product(tail), idx[0], Rank(tail, tidx));
      assert Picked(lists, idx) == [lists[0][idx[0]]] + Picked(tail, tidx);
    }
  }

  /** Multiplying by a natural number keeps the order. */
  lemma MulLe(a: nat, b: nat, n: nat)
    requires a <= b
    ensures a * n <= b * n
  {
    assert b * n == a * n + (b - a) * n;
  }

  /** k < m * n splits into the digit k / n below m and the digit k % n. */
  lemma DivBound(k: nat, m: nat, n: nat)
    requires k < m * n
    ensures n > 0 && k / n < m && (k / n) * n + k % n == k
  {
    if n > 0 && k / n >= m {
      MulLe(m, k / n, n);
    }
  }

  /** A position in the first list in front of a pick of the others is a pick,
      ranked by that position as the leading mixed-radix digit. */
  lemma ConsPick<T>(lists: seq<seq<T>>, d: nat, tidx: seq<nat>)
    requires lists != [] && d < |lists[0]| && IsPick(lists[1..], tidx)
    ensures IsPick(lists, [d] + tidx)
    ensures Rank(lists, [d] + tidx) == d * Size(lists[1..]) + Rank(lists[1..], tidx)
  {
    var idx := [d] + tidx;
    assert idx[1..] == tidx;
    forall j | 0 < j < |lists| ensures idx[j] < |lists[j]| {
      assert idx[j] == tidx[j - 1] && lists[j] == lists[1..][j - 1];
    }
  }

  /** The pick at position k of the product: the inverse of Rank. */
  function Unrank<T>(lists: seq<seq<T>>, k: nat): (idx: seq<nat>)
    requires k < Size(lists)
    ensures IsPick(lists, idx) && Rank(lists, idx) == k
  {
    if lists == [] then []
    else
      var n := Size(lists[1..]);
      DivBound(k, |lists[0]|, n);
      var tidx := Unrank(lists[1..], k % n);
      ConsPick(lists, k / n, tidx);
      [k / n] + tidx
  }

  /** A digit below n and the next digit make a number whose quotient and remainder by n give them back. */
  lemma DigitsBack(a: nat, b: nat, n: nat)
    requires b < n
    ensures (a * n + b) / n == a && (a * n + b) % n == b
  {
    var x := a * n + b;
    var q := x / n;
    if q > a {
      assert (a + 1) * n == a * n + n;
      MulLe(a + 1, q, n);
    } else if q < a {
      assert (q + 1) * n == q * n + n;
      MulLe(q + 1, a, n);
    }
  }

  /** Ranking a pick and unranking the rank gives the pick back, so no two picks
      share a position of the product. */
  lemma {:induction false} UnrankRank<T>(lists: seq<seq<T>>, idx: seq<nat>)
    requires IsPick(lists, idx)
    ensures Rank(lists, idx) < Size(lists) && Unrank(lists, Rank(lists, idx)) == idx
  {
    ProductAt(lists, idx);
    if lists != [] {
      var tail, tidx := lists[1..], idx[1..];
      assert IsPick(tail, tidx);
      UnrankRank(tail, tidx);
      DigitsBack(idx[0], Rank(tail, tidx), Size(tail));
      assert [idx[0]] + tidx == idx;
    }
  }

  /** Every entry of the product is the tuple of the pick its position unranks to. */
  lemma ProductEntry<T>(lists: seq<seq<T>>, k: nat)
    requires k < |Product(lists)|
    ensures Product(lists)[k] == Picked(lists, Unrank(lists, k))
  {
    ProductAt(lists, Unrank(lists, k));
  }

  /** f"{year} {month} {day} {hour} {min} {st}-{ed}" for one combination. */
  function ScheduleLine(c: seq<string>, st: string, ed: string): string
    requires |c| == 5
  {
    c[0] + " " + c[1] + " " + c[2] + " " + c[3] + " " + c[4] + " " + st + "-" + ed
  }

  /** The alternatives of the five date and time fields. */
  function ScheduleFields(year: string, month: string, day: string, hour: string, minute: string): seq<seq<string>> {
    [Split(year, ','), Split(month, ','), Split(day, ','), Split(hour, ','), Split(minute, ',')]
  }

  /** The rows the schedule dialog appends for the alternatives `fields` of
      year, month, day, hour and minute: one line per combination, in
      itertools.product order, all with the same range st-ed. */
  function ScheduleRows(fields: seq<seq<string>>, st: string, ed: string): seq<string>
    requires |fields| == 5
  {
    var combos := Product(fields);
    seq(|combos|, k requires 0 <= k < |combos| => ScheduleLine(combos[k], st, ed))
  }

  /** Size and rank of five lists, written out. */
  lemma RankOfFive<T>(f: seq<seq<T>>, idx: seq<nat>)
    requires |f| == 5 && IsPick(f, idx)
    ensures var n1, n2, n3, n4 := |f[1]|, |f[2]|, |f[3]|, |f[4]|;
      Size(f) == |f[0]| * (n1 * (n2 * (n3 * n4)))
      && Rank(f, idx) == idx[0] * (n1 * (n2 * (n3 * n4))) + idx[1] * (n2 * (n3 * n4))
                         + idx[2] * (n3 * n4) + idx[3] * n4 + idx[4]
  {
    var f1, f2, f3, f4 := f[1..], f[2..], f[3..], f[4..];
    var x1, x2, x3, x4 := idx[1..], idx[2..], idx[3..], idx[4..];
    assert f1[1..] == f2 && f2[1..] == f3 && f3[1..] == f4 && f4[1..] == [];
    assert x1[1..] == x2 && x2[1..] == x3 && x3[1..] == x4 && x4[1..] == [];
    assert Size(f4) == |f[4]|;
    assert Size(f3) == |f[3]| * |f[4]|;
    assert Size(f2) == |f[2]| * (|f[3]| * |f[4]|);
    assert Size(f1) == |f[1]| * (|f[2]| * (|f[3]| * |f[4]|));
    assert Rank(f4, x4) == idx[4];
    assert Rank(f3, x3) == idx[3] * |f[4]| + idx[4];
    assert Rank(f2, x2) == idx[2] * (|f[3]| * |f[4]|) + idx[3] * |f[4]| + idx[4];
  }

  /** The schedule row at the rank of a pick of alternatives is the line for that pick. */
  lemma ScheduleRowAtPick(f: seq<seq<string>>, st: string, ed: string, idx: seq<nat>)
    requires |f| == 5 && IsPick(f, idx)
    ensures Rank(f, idx) < |ScheduleRows(f, st, ed)|
    ensures ScheduleRows(f, st, ed)[Rank(f, idx)]
         == f[0][idx[0]] + " " + f[1][idx[1]] + " " + f[2][idx[2]] + " " + f[3][idx[3]] + " " + f[4][idx[4]] + " " + st + "-" + ed
  {
    ProductAt(f, idx);
    var r := Rank(f, idx);
    var c := Product(f)[r];
    assert c[0] == f[0][idx[0]] && c[1] == f[1][idx[1]] && c[2] == f[2][idx[2]] && c[3] == f[3][idx[3]] && c[4] == f[4][idx[4]];
    assert ScheduleRows(f, st, ed)[r] == ScheduleLine(c, st, ed);
  }

  /** The place of alternatives (i0, …, i4) in lexicographic order, minute fastest. */
  function ScheduleIndex(f: seq<seq<string>>, i0: nat, i1: nat, i2: nat, i3: nat, i4: nat): nat
    requires |f| == 5
  {
    var n1, n2, n3, n4 := |f[1]|, |f[2]|, |f[3]|, |f[4]|;
    i0 * (n1 * (n2 * (n3 * n4))) + i1 * (n2 * (n3 * n4)) + i2 * (n3 * n4) + i3 * n4 + i4
  }

  /** The schedule expansion: |years|·|months|·|days|·|hours|·|minutes| rows;
      the row for alternatives (i0, …, i4) sits at their lexicographic rank,
      minute fastest, and reads "y m d h min st-ed". */
  lemma {:induction false} ScheduleRowsAt(f: seq<seq<string>>, st: string, ed: string,
                                         i0: nat, i1: nat, i2: nat, i3: nat, i4: nat)
    requires |f| == 5
    requires i0 < |f[0]| && i1 < |f[1]| && i2 < |f[2]| && i3 < |f[3]| && i4 < |f[4]|
    ensures |ScheduleRows(f, st, ed)| == |f[0]| * (|f[1]| * (|f[2]| * (|f[3]| * |f[4]|)))
    ensures ScheduleIndex(f, i0, i1, i2, i3, i4) < |ScheduleRows(f, st, ed)|
    ensures ScheduleRows(f, st, ed)[ScheduleIndex(f, i0, i1, i2, i3, i4)]
         == f[0][i0] + " " + f[1][i1] + " " + f[2][i2] + " " + f[3][i3] + " " + f[4][i4] + " " + st + "-" + ed
  {
    var idx: seq<nat> := [i0, i1, i2, i3, i4];
    assert idx[0] == i0 && idx[1] == i1 && idx[2] == i2 && idx[3] == i3 && idx[4] == i4;
    assert IsPick(f, idx);
    RankOfFive(f, idx);
    ScheduleRowAtPick(f, st, ed, idx);
    assert ScheduleIndex(f, i0, i1, i2, i3, i4) == Rank(f, idx);
  }

  /** Every schedule row ends with the same " st-ed". */
  lemma ScheduleRowsRange(f: seq<seq<string>>, st: string, ed: string, k: nat)
    requires |f| == 5 && k < |ScheduleRows(f, st, ed)|
    ensures EndsWith(ScheduleRows(f, st, ed)[k], " " + st + "-" + ed)
  {
    var c := Product(f)[k];
    var row := ScheduleRows(f, st, ed)[k];
    var front := c[0] + " " + c[1] + " " + c[2] + " " + c[3] + " " + c[4];
    assert row == front + (" " + st + "-" + ed);
  }

  /** The guard of the schedule dialog: no field may be empty. */
  predicate AllFilled(year: string, month: string, day: string, hour: string, minute: string,
                      st: string, ed: string)
  {
    year != "" && month != "" && day != "" && hour != "" && minute != "" && st != "" && ed != ""
  }

  // ----------------------------------------------------------- contact filter

  /** filter_contacts: a row is hidden exactly when the lower-cased query does
      not occur in its lower-cased text. */
  function Filtered(items: seq<Item>, query: string): seq<Item> {
    seq(|items|, i requires 0 <= i < |items|
      => items[i].(hidden := !Contains(Lower(items[i].text), Lower(query))))
  }

  /** Filtering changes only the hidden flags: a row is hidden iff the query
      occurs nowhere in it, ignoring ASCII case; texts and selection stay. */
  lemma FilterSpec(items: seq<Item>, query: string, i: nat)
    requires i < |items|
    ensures |Filtered(items, query)| == |items|
    ensures TextsOf(Filtered(items, query)) == TextsOf(items)
    ensures Filtered(items, query)[i].text == items[i].text
    ensures Filtered(items, query)[i].selected == items[i].selected
    ensures Filtered(items, query)[i].hidden
        <==> !Occurs(Lower(items[i].text), Lower(query))
  {
    var t, q := Lower(items[i].text), Lower(query);
    assert Filtered(items, query)[i].hidden == !Contains(t, q);
    ContainsIff(t, q);
  }

  /** An empty query shows every row. */
  lemma FilterEmptyShowsAll(items: seq<Item>)
    ensures forall i :: 0 <= i < |Filtered(items, "")| ==> !Filtered(items, "")[i].hidden
  {
    forall i | 0 <= i < |items| ensures Contains(Lower(items[i].text), Lower("")) {
      ContainsEmpty(Lower(items[i].text));
    }
  }

  /** The query's case does not matter, and filtering twice is filtering once. */
  lemma FilterCaseAndRepeat(items: seq<Item>, query: string)
    ensures Filtered(items, Lower(query)) == Filtered(items, query)
    ensures Filtered(Filtered(items, query), query) == Filtered(items, query)
  {
    LowerIdempotent(query);
  }

  // ------------------------------------------------------------ radio labels

  /** The check mark update_radio_labels puts after the chosen label. */
  const Mark: string := " \U{2714}"

  /** The chosen label: the mark is added unless it is already there. */
  function Marked(t: string): string {
    if EndsWith(t, Mark) then t else t + Mark
  }

  /** Another label: one trailing mark is removed (text[:-2]). */
  function Unmarked(t: string): string {
    if EndsWith(t, Mark) then t[..|t| - |Mark|] else t
  }

  /** A label carries at most one trailing mark. */
  predicate AtMostOneMark(t: string) {
    EndsWith(t, Mark) ==> !EndsWith(t[..|t| - |Mark|], Mark)
  }

  /** After an update the chosen label ends with the mark and, when every label
      carried at most one mark, no other label does; all labels keep at most one
      mark; repeating the update changes nothing; the bare label (Unmarked) is
      unaffected by being chosen, and choosing a label then another one
      restores its text. */
  lemma RadioMarks(chosen: string, other: string)
    requires AtMostOneMark(chosen) && AtMostOneMark(other)
    ensures EndsWith(Marked(chosen), Mark) && AtMostOneMark(Marked(chosen))
    ensures !EndsWith(Unmarked(other), Mark) && AtMostOneMark(Unmarked(other))
    ensures Marked(Marked(chosen)) == Marked(chosen)
    ensures Unmarked(Unmarked(other)) == Unmarked(other)
    ensures Unmarked(Marked(chosen)) == Unmarked(chosen)
    ensures Marked(Unmarked(other)) == Marked(other)
  {
    if !EndsWith(chosen, Mark) {
      assert (chosen + Mark)[..|chosen + Mark| - |Mark|] == chosen;
      assert (chosen + Mark)[|chosen + Mark| - |Mark|..] == Mark;
    }
    if EndsWith(other, Mark) {
      assert other[..|other| - |Mark|] + Mark == other;
    }
  }

  // ------------------------------------------------------------- config load

  /** The rows a config load keeps: the non-empty strings, in order. */
  function NonEmpty(rows: seq<string>): (r: seq<string>)
    ensures |r| <= |rows|
    ensures forall k :: 0 <= k < |r| ==> r[k] != ""
  {
    if rows == [] then [] else (if rows[0] == "" then [] else [rows[0]]) + NonEmpty(rows[1..])
  }

  /** Without empty rows a load keeps every row. */
  lemma {:induction false} NonEmptyKeepsAll(rows: seq<string>)
    requires forall k :: 0 <= k < |rows| ==> rows[k] != ""
    ensures NonEmpty(rows) == rows
  {
    if rows != [] {
      NonEmptyKeepsAll(rows[1..]);
      assert [rows[0]] + rows[1..] == rows;
    }
  }

  /** An empty row among them is dropped. */
  lemma {:induction false} NonEmptyDrops(rows: seq<string>)
    requires exists k :: 0 <= k < |rows| && rows[k] == ""
    ensures |NonEmpty(rows)| < |rows|
  {
    if rows[0] != "" {
      var k :| 0 <= k < |rows| && rows[k] == "";
      assert rows[1..][k - 1] == "";
      NonEmptyDrops(rows[1..]);
    }
  }

  /** Keeping the non-empty rows of a longer list: the new row is kept exactly
      when it is not empty. */
  lemma {:induction false} NonEmptySnoc(rows: seq<string>, x: string)
    ensures NonEmpty(rows + [x]) == NonEmpty(rows) + (if x == "" then [] else [x])
  {
    if rows == [] {
      assert rows + [x] == [x];
    } else {
      assert (rows + [x])[1..] == rows[1..] + [x];
      NonEmptySnoc(rows[1..], x);
    }
  }
}
