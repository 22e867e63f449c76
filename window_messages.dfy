/**
 * Window-message names for tracing (WindowMessages.cpp): a table of (name, message)
 * pairs sorted by message, searched with `std::lower_bound`, behind two fixed texts for
 * the application and user message ranges.
 */
module WindowMessages {
  import opened Wrappers
  import opened Packed
  import SortedTable

  /** One row of the table: the message's SDK name and its number. */
  datatype MessageMap = MessageMap(text: string, message: uint32)

  const WmUser: uint32 := 0x0400
  const WmApp: uint32 := 0x8000

  /** The message numbers of the table, in table order. */
  function Keys(messageMap: seq<MessageMap>): (keys: seq<int>)
    ensures |keys| == |messageMap|
    ensures forall i :: 0 <= i < |keys| ==> keys[i] == messageMap[i].message
  {
    seq(|messageMap|, i requires 0 <= i < |messageMap| => messageMap[i].message as int)
  }

  /**
   * `map_message_to_index`: the position `std::lower_bound` finds when the message is
   * there, which is its first occurrence; nothing when it is absent (the out-parameter is
   * then left unwritten).
   */
  function MapMessageToIndex(messageMap: seq<MessageMap>, message: uint32): (index: Option<nat>)
    requires SortedTable.Sorted(Keys(messageMap))
    ensures index.Some? <==> exists i :: 0 <= i < |messageMap| && messageMap[i].message == message
    ensures index.Some? ==> index.value < |messageMap| && messageMap[index.value].message == message
    ensures index.Some? ==> forall j :: 0 <= j < index.value ==> messageMap[j].message != message
  {
    var keys := Keys(messageMap);
    SortedTable.LowerBoundFinds(keys, message);
    var i := SortedTable.LowerBound(keys, message);
    if i < |messageMap| && message == messageMap[i].message then Some(i) else None
  }

  /**
   * `string_from_window_message`: the application and user ranges by their bounds alone,
   * then the table's text for a message it lists, else "Unknown message".
   */
  function StringFromWindowMessage(messageMap: seq<MessageMap>, message: uint32): (text: string)
    requires SortedTable.Sorted(Keys(messageMap))
  {
    if message >= WmApp then "WM_APP private message"
    else if message >= WmUser then "WM_USER private message"
    else
      match MapMessageToIndex(messageMap, message)
      case Some(index) => messageMap[index].text
      case None => "Unknown message"
  }

  /**
   * From 0x8000 up the text is the application text and from 0x0400 the user text,
   * whatever the table holds; below 0x0400 it is the text of the first row with that
   * message, or "Unknown message" when no row has it.
   */
  lemma StringFromWindowMessageCases(messageMap: seq<MessageMap>, message: uint32)
    requires SortedTable.Sorted(Keys(messageMap))
    ensures var text := StringFromWindowMessage(messageMap, message);
      && (message >= 0x8000 ==> text == "WM_APP private message")
      && (0x0400 <= message < 0x8000 ==> text == "WM_USER private message")
      && ((message < 0x0400 && forall i :: 0 <= i < |messageMap| ==> messageMap[i].message != message)
          ==> text == "Unknown message")
      && (forall i :: 0 <= i < |messageMap| && messageMap[i].message == message && message < 0x0400
            && (forall j :: 0 <= j < i ==> messageMap[j].message != message)
            ==> text == messageMap[i].text)
  {
  }

  /** The three checks of `debug_validate_message_map`. */
  ghost predicate ValidMessageMap(messageMap: seq<MessageMap>)
  {
    && |messageMap| > 0
    && SortedTable.Sorted(Keys(messageMap))
    && (forall e :: e in messageMap ==>
          && MapMessageToIndex(messageMap, e.message).Some?
          && messageMap[MapMessageToIndex(messageMap, e.message).value].message == e.message)
    && messageMap[|messageMap| - 1].message < WmUser
  }

  /** On a sorted table the accessibility check cannot fail: every row is found by its own message. */
  lemma AllEntriesAccessible(messageMap: seq<MessageMap>)
    requires SortedTable.Sorted(Keys(messageMap))
    ensures forall e :: e in messageMap ==>
      && MapMessageToIndex(messageMap, e.message).Some?
      && messageMap[MapMessageToIndex(messageMap, e.message).value].message == e.message
  {
  }

  /**
   * With the last message below WM_USER, every message of a valid table is below WM_USER,
   * so the two range tests never hide a row: each row's message maps to a table text.
   */
  lemma EveryRowReachable(messageMap: seq<MessageMap>)
    requires ValidMessageMap(messageMap)
    ensures forall i :: 0 <= i < |messageMap| ==> messageMap[i].message < WmUser
    ensures forall i :: 0 <= i < |messageMap| ==>
      StringFromWindowMessage(messageMap, messageMap[i].message)
      == messageMap[MapMessageToIndex(messageMap, messageMap[i].message).value].text
  {
    var last := |messageMap| - 1;
    forall i | 0 <= i < |messageMap| ensures messageMap[i].message < WmUser {
      assert Keys(messageMap)[i] <= Keys(messageMap)[last];
    }
  }

  /**
   * `debug_validate_message_map`: `std::is_sorted`, then the lookup of every row by its
   * own message, then the last message below WM_USER. Each check runs only when the ones
   * before it passed, as the first failed assertion stops the program.
   */
  method DebugValidateMessageMap(messageMap: seq<MessageMap>) returns (passes: bool)
    requires |messageMap| > 0
    ensures passes <==> ValidMessageMap(messageMap)
  {
    var keys := Keys(messageMap);
    var i := 0;
    while i < |messageMap| - 1
      invariant i <= |messageMap| - 1
      invariant forall j :: 0 <= j < i ==> keys[j] <= keys[j + 1]
    {
      if messageMap[i + 1].message < messageMap[i].message {
        assert !SortedTable.Sorted(keys) by {
          assert keys[i] > keys[i + 1];
        }
        return false;
      }
      i := i + 1;
    }
    SortedTable.AdjacentOrderSorts(keys);

    i := 0;
    while i < |messageMap|
      invariant i <= |messageMap|
      invariant forall j :: 0 <= j < i ==>
        && MapMessageToIndex(messageMap, messageMap[j].message).Some?
        && messageMap[MapMessageToIndex(messageMap, messageMap[j].message).value].message == messageMap[j].message
    {
      var index := MapMessageToIndex(messageMap, messageMap[i].message);
      if index.None? || messageMap[index.value].message != messageMap[i].message {
        return false;
      }
      i := i + 1;
    }
    passes := messageMap[|messageMap| - 1].message < WmUser;
  }
}
