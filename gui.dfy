/**
 The WechatGUI window's list-editing and state-changing actions: the contact
 list (add, delete and renumber, filter), the message queue (add text or
 mention, add file, delete and renumber), the schedule list (expand and add,
 delete), the clock's start/stop and keep-online flags, the language radio
 labels, and the data half of saving and loading the configuration. Dialog
 results are the methods' parameters.
 */
module Gui {
  import opened Strings
  import opened Widgets
  import opened Rows

  /** The two flags of the clock thread that the window sets. */
  class Clock {
    var timeCounting: bool
    var preventOffline: bool

    constructor ()
      ensures !timeCounting && !preventOffline
    {
      timeCounting, preventOffline := false, false;
    }
  }

  /** A language radio button; only its label matters here. */
  class RadioButton {
    var text: string

    constructor (text: string)
      ensures this.text == text
    {
      this.text := text;
    }
  }

  /** What the configuration file holds; a key the file lacks is None. */
  datatype Config = Config(
    wechatPath: Option<string>,
    contacts: Option<seq<string>>,
    messages: Option<seq<string>>,
    schedules: Option<seq<string>>,
    preventOffline: Option<bool>)

  /** How a press of "start" ends. */
  datatype StartOutcome = NoMessages | NoSchedules | AlreadyCounting | Started

  class WechatGui {
    const contactsView: ListWidget
    const msg: ListWidget
    const timeView: ListWidget
    const clock: Clock
    /** The client's executable path; "" while none is set. */
    var wechatPath: string

    /** The three lists are distinct widgets. */
    ghost predicate Valid() {
      contactsView != msg && contactsView != timeView && msg != timeView
    }

    constructor ()
      ensures Valid()
      ensures fresh(contactsView) && fresh(msg) && fresh(timeView) && fresh(clock)
      ensures contactsView.items == [] && msg.items == [] && timeView.items == []
      ensures !clock.timeCounting && !clock.preventOffline && wechatPath == ""
    {
      contactsView := new ListWidget();
      msg := new ListWidget();
      timeView := new ListWidget();
      clock := new Clock();
      wechatPath := "";
    }

    // ------------------------------------------------------------ contacts

    /** add_contact: for an accepted, non-empty input, one row per
        comma-separated name, numbered on from the current count. */
    method AddContact(accepted: bool, nameList: string)
      modifies contactsView
      ensures contactsView.items == old(contactsView.items) + FreshItems(
        if accepted && nameList != "" then ContactRows(|old(contactsView.items)|, Split(nameList, ','))
        else [])
    {
      if accepted && nameList != "" {
        AppendContacts(Split(nameList, ','));
      }
    }

    /** The loop of add_contact: each name, stripped, becomes a row numbered
        one past the rows already there. */
    method AppendContacts(names: seq<string>)
      modifies contactsView
      ensures contactsView.items == old(contactsView.items) + FreshItems(ContactRows(|old(contactsView.items)|, names))
    {
      ghost var rows := ContactRows(|contactsView.items|, names);
      var j := 0;
      while j < |names|
        invariant 0 <= j <= |names| == |rows|
        invariant contactsView.items == old(contactsView.items) + FreshItems(rows[..j])
      {
        var id := |contactsView.items| + 1;
        contactsView.AddItem(ContactRow(id, Strip(names[j])));
        AppendFresh(old(contactsView.items), rows, j);
        j := j + 1;
      }
      assert rows[..j] == rows;
    }

    /** del_contact: take the selected rows, then renumber the rest 1..n,
        each keeping the field after its first colon (up to the next one).
        Every surviving row must hold a colon: Python's split(':')[1] raises
        otherwise. */
    method DelContact()
      requires KeptHaveColon(contactsView.items)
      modifies contactsView
      ensures contactsView.items == DeleteContacts(old(contactsView.items))
    {
      UnselectedHaveColon(contactsView.items);
      contactsView.TakeSelected();
      RenumberContactRows();
    }

    /** The renumbering loop of del_contact: row i becomes
        f"{i + 1}:{text.split(':')[1]}". */
    method RenumberContactRows()
      requires forall k :: 0 <= k < |contactsView.items| ==> ':' in contactsView.items[k].text
      modifies contactsView
      ensures contactsView.items == RenumberContacts(old(contactsView.items))
    {
      ghost var kept := contactsView.items;
      var i := 0;
      while i < |contactsView.items|
        invariant 0 <= i <= |kept| == |contactsView.items|
        invariant forall k :: 0 <= k < i ==> contactsView.items[k] == RenumberContacts(kept)[k]
        invariant forall k :: i <= k < |kept| ==> contactsView.items[k] == kept[k]
      {
        contactsView.SetText(i, NatToString(i + 1) + ":" + Split(contactsView.items[i].text, ':')[1]);
        i := i + 1;
      }
    }

    /** filter_contacts: hide exactly the rows whose lower-cased text does not
        contain the lower-cased query. */
    method FilterContacts(text: string)
      modifies contactsView
      ensures contactsView.items == Filtered(old(contactsView.items), text)
    {
      var i := 0;
      while i < |contactsView.items|
        invariant 0 <= i <= |contactsView.items| == |old(contactsView.items)|
        invariant forall k :: 0 <= k < i ==> contactsView.items[k] == Filtered(old(contactsView.items), text)[k]
        invariant forall k :: i <= k < |contactsView.items| ==> contactsView.items[k] == old(contactsView.items)[k]
      {
        if Contains(Lower(contactsView.items[i].text), Lower(text)) {
          contactsView.SetHidden(i, false);
        } else {
          contactsView.SetHidden(i, true);
        }
        i := i + 1;
      }
    }

    // ------------------------------------------------------------ schedules

    /** The schedule dialog: reject it (the "input cannot be empty" warning)
        when a field is empty; otherwise append one row per combination of
        the comma-separated alternatives. */
    method AddSchedule(accepted: bool, year: string, month: string, day: string, hour: string,
                       minute: string, st: string, ed: string)
      returns (rejected: bool)
      modifies timeView
      ensures rejected == (accepted && !AllFilled(year, month, day, hour, minute, st, ed))
      ensures timeView.items == old(timeView.items) + FreshItems(
        if accepted && AllFilled(year, month, day, hour, minute, st, ed)
        then ScheduleRows(ScheduleFields(year, month, day, hour, minute), st, ed)
        else [])
    {
      rejected := false;
      if accepted {
        if !AllFilled(year, month, day, hour, minute, st, ed) {
          rejected := true;
          return;
        }
        var combos := Product(ScheduleFields(year, month, day, hour, minute));
        ghost var rows := ScheduleRows(ScheduleFields(year, month, day, hour, minute), st, ed);
        var j := 0;
        while j < |combos|
          invariant 0 <= j <= |combos| == |rows|
          invariant timeView.items == old(timeView.items) + FreshItems(rows[..j])
        {
          var c := combos[j];
          timeView.AddItem(ScheduleLine(c, st, ed));
          AppendFresh(old(timeView.items), rows, j);
          j := j + 1;
        }
        assert rows[..j] == rows;
      }
    }

    /** The schedule list's delete: take the selected rows, no renumbering. */
    method DelSchedule()
      modifies timeView
      ensures timeView.items == Unselected(old(timeView.items))
    {
      timeView.TakeSelected();
    }

    // ------------------------------------------------------------- messages

    /** add_text: for an accepted dialog with non-empty text, queue a text or
        mention item ranked after the current rows. */
    method AddText(accepted: bool, to: string, text: string)
      modifies msg
      ensures msg.items == old(msg.items) + FreshItems(
        if accepted && text != "" then [FormatMessage(TextMessage(|old(msg.items)| + 1, to, text))] else [])
    {
      if accepted {
        var target := if to == "" then "all" else to;
        if text != "" {
          var rank := |msg.items| + 1;
          if |text| >= 3 && text[..3] == "at:" {
            msg.AddItem(NatToString(rank) + ":" + ("at" + ":" + (target + ":" + text[3..])));
          } else {
            msg.AddItem(NatToString(rank) + ":" + ("text" + ":" + (target + ":" + text)));
          }
        }
      }
    }

    /** add_file: for an accepted dialog with a non-empty path, queue a file item. */
    method AddFile(accepted: bool, to: string, path: string)
      modifies msg
      ensures msg.items == old(msg.items) + FreshItems(
        if accepted && path != "" then [FormatMessage(FileMessage(|old(msg.items)| + 1, to, path))] else [])
    {
      if accepted {
        var target := if to == "" then "all" else to;
        if path != "" {
          var rank := |msg.items| + 1;
          msg.AddItem(NatToString(rank) + ":" + ("file" + ":" + (target + ":" + path)));
        }
      }
    }

    /** del_content: take the selected rows, then renumber the rest 1..n,
        each keeping everything after its first colon. Every surviving row
        must hold a colon: Python's split(':', 1)[1] raises otherwise. */
    method DelContent()
      requires KeptHaveColon(msg.items)
      modifies msg
      ensures msg.items == DeleteMessages(old(msg.items))
    {
      UnselectedHaveColon(msg.items);
      msg.TakeSelected();
      RenumberMessageRows();
    }

    /** The renumbering loop of del_content: row i becomes
        f"{i + 1}:" + text.split(':', 1)[1]. */
    method RenumberMessageRows()
      requires forall k :: 0 <= k < |msg.items| ==> ':' in msg.items[k].text
      modifies msg
      ensures msg.items == RenumberMessages(old(msg.items))
    {
      ghost var kept := msg.items;
      var i := 0;
      while i < |msg.items|
        invariant 0 <= i <= |kept| == |msg.items|
        invariant forall k :: 0 <= k < i ==> msg.items[k] == RenumberMessages(kept)[k]
        invariant forall k :: i <= k < |kept| ==> msg.items[k] == kept[k]
      {
        msg.SetText(i, NatToString(i + 1) + ":" + AfterFirst(msg.items[i].text, ':'));
        i := i + 1;
      }
    }

    // ---------------------------------------------------------- clock flags

    /** start_counting: refused while the message or the schedule list is
        empty, a no-op while already counting, otherwise counting starts. */
    method StartCounting() returns (outcome: StartOutcome)
      modifies clock
      ensures outcome == (if |msg.items| == 0 then NoMessages
                          else if |timeView.items| == 0 then NoSchedules
                          else if old(clock.timeCounting) then AlreadyCounting
                          else Started)
      ensures clock.timeCounting == (old(clock.timeCounting) || outcome == Started)
      ensures clock.preventOffline == old(clock.preventOffline)
    {
      if |msg.items| == 0 {
        return NoMessages;
      }
      if |timeView.items| == 0 {
        return NoSchedules;
      }
      if clock.timeCounting {
        return AlreadyCounting;
      }
      clock.timeCounting := true;
      outcome := Started;
    }

    /** end_counting: counting stops, whatever the state. */
    method EndCounting()
      modifies clock
      ensures !clock.timeCounting
      ensures clock.preventOffline == old(clock.preventOffline)
    {
      clock.timeCounting := false;
    }

    /** toggle_prevent_offline: the keep-online flag flips. */
    method TogglePreventOffline()
      modifies clock
      ensures clock.preventOffline == !old(clock.preventOffline)
      ensures clock.timeCounting == old(clock.timeCounting)
    {
      if clock.preventOffline {
        clock.preventOffline := false;
      } else {
        clock.preventOffline := true;
      }
    }

    /** Toggling twice restores the flag; stopping twice is stopping once. */
    method ToggleTwiceStopTwice()
      modifies clock
      ensures clock.preventOffline == old(clock.preventOffline)
      ensures !clock.timeCounting
    {
      TogglePreventOffline();
      TogglePreventOffline();
      EndCounting();
      EndCounting();
    }

    // --------------------------------------------------------- radio labels

    /** update_radio_labels: mark the chosen label, strip one mark from each
        other label. */
    method UpdateRadioLabels(selected: RadioButton, others: seq<RadioButton>)
      requires selected !in others
      requires forall a, b :: 0 <= a < b < |others| ==> others[a] != others[b]
      modifies {selected} + set b: RadioButton | b in others
      ensures selected.text == Marked(old(selected.text))
      ensures forall k :: 0 <= k < |others| ==> others[k].text == Unmarked(old(others[k].text))
    {
      var text := selected.text;
      if !EndsWith(text, Mark) {
        selected.text := text + Mark;
      }
      var j := 0;
      while j < |others|
        invariant 0 <= j <= |others|
        invariant selected.text == Marked(old(selected.text))
        invariant forall k :: 0 <= k < j ==> others[k].text == Unmarked(old(others[k].text))
        invariant forall k :: j <= k < |others| ==> others[k].text == old(others[k].text)
      {
        var t := others[j].text;
        if EndsWith(t, Mark) {
          others[j].text := t[..|t| - 2];
        }
        j := j + 1;
      }
    }

    // --------------------------------------------------------------- config

    /** Copies the texts of a list's rows, in order (the loops of save_config). */
    method CollectTexts(view: ListWidget) returns (texts: seq<string>)
      ensures texts == view.Texts()
    {
      texts := [];
      var i := 0;
      while i < |view.items|
        invariant 0 <= i <= |view.items|
        invariant texts == TextsOf(view.items[..i])
      {
        texts := texts + [view.items[i].text];
        i := i + 1;
        assert TextsOf(view.items[..i]) == TextsOf(view.items[..i - 1]) + [view.items[i - 1].text];
      }
      assert view.items[..i] == view.items;
    }

    /** save_config, without the file: every key is written, each list as
        the texts of all its rows. */
    method SaveConfig() returns (cfg: Config)
      ensures cfg == Config(Some(wechatPath), Some(contactsView.Texts()), Some(msg.Texts()),
                            Some(timeView.Texts()), Some(clock.preventOffline))
    {
      var contacts := CollectTexts(contactsView);
      var messages := CollectTexts(msg);
      var schedules := CollectTexts(timeView);
      cfg := Config(Some(wechatPath), Some(contacts), Some(messages), Some(schedules), Some(clock.preventOffline));
    }

    /** Clears a list and adds the non-empty texts (the loops of load_config). */
    method Reload(view: ListWidget, rows: seq<string>)
      modifies view
      ensures view.items == FreshItems(NonEmpty(rows))
    {
      view.Clear();
      var i := 0;
      while i < |rows|
        invariant 0 <= i <= |rows|
        invariant view.items == FreshItems(NonEmpty(rows[..i]))
      {
        if rows[i] != "" {
          view.AddItem(rows[i]);
        }
        NonEmptySnoc(rows[..i], rows[i]);
        assert rows[..i + 1] == rows[..i] + [rows[i]];
        i := i + 1;
      }
      assert rows[..i] == rows;
    }

    /** load_config, without the file: a non-empty path is taken; a list whose
        key is present is replaced by its non-empty texts, one whose key is
        absent is left alone; the keep-online flag is taken when present. */
    method LoadConfig(cfg: Config)
      requires Valid()
      modifies this, contactsView, msg, timeView, clock
      ensures wechatPath == (if cfg.wechatPath.Some? && cfg.wechatPath.value != "" then cfg.wechatPath.value
                             else old(wechatPath))
      ensures contactsView.items == (if cfg.contacts.Some? then FreshItems(NonEmpty(cfg.contacts.value))
                                     else old(contactsView.items))
      ensures msg.items == (if cfg.messages.Some? then FreshItems(NonEmpty(cfg.messages.value))
                            else old(msg.items))
      ensures timeView.items == (if cfg.schedules.Some? then FreshItems(NonEmpty(cfg.schedules.value))
                                 else old(timeView.items))
      ensures clock.preventOffline == (if cfg.preventOffline.Some? then cfg.preventOffline.value
                                       else old(clock.preventOffline))
      ensures clock.timeCounting == old(clock.timeCounting)
    {
      if cfg.wechatPath.Some? && cfg.wechatPath.value != "" {
        wechatPath := cfg.wechatPath.value;
      }
      if cfg.contacts.Some? {
        Reload(contactsView, cfg.contacts.value);
      }
      if cfg.messages.Some? {
        Reload(msg, cfg.messages.value);
      }
      if cfg.schedules.Some? {
        Reload(timeView, cfg.schedules.value);
      }
      if cfg.preventOffline.Some? {
        clock.preventOffline := cfg.preventOffline.value;
      }
    }

    /** Saving then loading restores every list's texts, the path and the
        keep-online flag when no row is an empty string (row flags are reset). */
    method SaveThenLoad()
      requires Valid()
      requires forall i :: 0 <= i < |contactsView.items| ==> contactsView.items[i].text != ""
      requires forall i :: 0 <= i < |msg.items| ==> msg.items[i].text != ""
      requires forall i :: 0 <= i < |timeView.items| ==> timeView.items[i].text != ""
      modifies this, contactsView, msg, timeView, clock
      ensures contactsView.Texts() == old(contactsView.Texts())
      ensures msg.Texts() == old(msg.Texts())
      ensures timeView.Texts() == old(timeView.Texts())
      ensures wechatPath == old(wechatPath)
      ensures clock.preventOffline == old(clock.preventOffline)
      ensures clock.timeCounting == old(clock.timeCounting)
    {
      var cfg := SaveConfig();
      NonEmptyKeepsAll(contactsView.Texts());
      NonEmptyKeepsAll(msg.Texts());
      NonEmptyKeepsAll(timeView.Texts());
      LoadConfig(cfg);
      TextsOfFresh(old(contactsView.Texts()));
      TextsOfFresh(old(msg.Texts()));
      TextsOfFresh(old(timeView.Texts()));
    }
  }
}
