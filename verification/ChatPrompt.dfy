/** PromptBuilder::build (prompt_builder.cpp): oldest messages are dropped until the prompt fits, never
    a system message. Formatter and token counter are arbitrary functions. */
module ChatPrompt {
  import opened Base

  datatype Role = System | User | Assistant
  datatype Message = Message(role: Role, content: string)

  type Format = (seq<Message>, bool) -> string

  datatype Prompt = Prompt(text: string, retained: seq<Message>, tokenCount: nat, discarded: nat)

  // ---------------------------------------------------------------- dropping

  /** The messages without their first d non-system ones. */
  function Keep(messages: seq<Message>, d: nat): seq<Message> {
    if messages == [] || d == 0 then messages
    else if messages[0].role.System? then [messages[0]] + Keep(messages[1..], d)
    else Keep(messages[1..], d - 1)
  }

  function Systems(messages: seq<Message>): seq<Message> {
    if messages == [] then []
    else if messages[0].role.System? then [messages[0]] + Systems(messages[1..])
    else Systems(messages[1..])
  }

  function Others(messages: seq<Message>): seq<Message> {
    if messages == [] then []
    else if messages[0].role.System? then Others(messages[1..])
    else [messages[0]] + Others(messages[1..])
  }

  /** All system messages stay; of the others exactly the first d go. */
  lemma {:induction false} KeepDropsOldest(messages: seq<Message>, d: nat)
    requires d <= |Others(messages)|
    ensures Systems(Keep(messages, d)) == Systems(messages)
    ensures Others(Keep(messages, d)) == Others(messages)[d..]
    ensures |Keep(messages, d)| == |messages| - d
    decreases |messages|
  {
    if messages != [] && d > 0 {
      var head, tail := messages[0], messages[1..];
      if head.role.System? {
        KeepDropsOldest(tail, d);
        var kept := Keep(messages, d);
        assert kept[0] == head && kept[1..] == Keep(tail, d);
      } else {
        KeepDropsOldest(tail, d - 1);
        assert Others(messages)[d..] == Others(tail)[d - 1..];
      }
    }
  }

  /** The first non-system message, or the length. */
  function FirstOther(messages: seq<Message>): (i: nat)
    ensures i <= |messages|
    ensures i < |messages| ==> !messages[i].role.System?
    ensures forall j :: 0 <= j < i ==> messages[j].role.System?
  {
    if messages == [] || !messages[0].role.System? then 0 else 1 + FirstOther(messages[1..])
  }

  lemma {:induction false} FirstOtherExists(messages: seq<Message>)
    ensures FirstOther(messages) < |messages| <==> Others(messages) != []
    decreases |messages|
  {
    if messages != [] && messages[0].role.System? { FirstOtherExists(messages[1..]); }
  }

  function Erase(messages: seq<Message>, i: nat): seq<Message>
    requires i < |messages|
  {
    messages[..i] + messages[i + 1..]
  }

  lemma {:induction false} EraseTail(messages: seq<Message>, i: nat)
    requires 0 < i < |messages|
    ensures Erase(messages, i) == [messages[0]] + Erase(messages[1..], i - 1)
  {
  }

  lemma {:induction false} EraseFirst(messages: seq<Message>)
    requires FirstOther(messages) < |messages|
    ensures Erase(messages, FirstOther(messages)) == Keep(messages, 1)
    decreases |messages|
  {
    var i := FirstOther(messages);
    if i == 0 {
      assert Erase(messages, 0) == messages[1..];
      assert Keep(messages[1..], 0) == messages[1..];
    } else {
      EraseFirst(messages[1..]);
      EraseTail(messages, i);
    }
  }

  lemma {:induction false} KeepOneMore(messages: seq<Message>, d: nat)
    requires d < |Others(messages)|
    ensures Keep(Keep(messages, d), 1) == Keep(messages, d + 1)
    decreases |messages|
  {
    if d > 0 {
      var head, tail := messages[0], messages[1..];
      if head.role.System? {
        KeepOneMore(tail, d);
        var kept := Keep(messages, d);
        assert kept[0] == head && kept[1..] == Keep(tail, d);
      } else {
        KeepOneMore(tail, d - 1);
      }
    }
  }

  /** Dropping one more takes out the first non-system message left, and leaves all others in their places. */
  lemma {:induction false} KeepMeans(messages: seq<Message>, d: nat) returns (i: nat)
    requires d < |Others(messages)|
    ensures Keep(messages, 0) == messages
    ensures var kept := Keep(messages, d);
            && i < |kept| && !kept[i].role.System? && (forall j :: 0 <= j < i ==> kept[j].role.System?)
            && Keep(messages, d + 1) == kept[..i] + kept[i + 1..]
  {
    var kept := Keep(messages, d);
    i := FirstOther(kept);
    KeepDropsOldest(messages, d);
    FirstOtherExists(kept);
    EraseFirst(kept);
    KeepOneMore(messages, d);
  }

  // ---------------------------------------------------------------- how many to drop

  /** All non-system messages may go if a system message is there; otherwise one must stay. */
  predicate Allowed(messages: seq<Message>, d: nat) {
    d <= |Others(messages)| && d < |messages|
  }

  lemma {:induction false} AllowedMeans(messages: seq<Message>, d: nat)
    requires messages != []
    ensures Allowed(messages, d) <==>
            if Systems(messages) != [] then d <= |Others(messages)| else d <= |messages| - 1
  {
    SystemsAndOthers(messages);
  }

  lemma {:induction false} SystemsAndOthers(messages: seq<Message>)
    ensures |Systems(messages)| + |Others(messages)| == |messages|
    decreases |messages|
  {
    if messages != [] { SystemsAndOthers(messages[1..]); }
  }

  predicate Fits(messages: seq<Message>, d: nat, format: Format, count: string -> nat, max: nat) {
    count(format(Keep(messages, d), true)) <= max
  }

  /** The least allowed number of messages that fits is dropped; it throws exactly when none fits. */
  method Build(messages: seq<Message>, format: Format, count: string -> nat, max: nat) returns (r: Outcome<Prompt>)
    ensures r.Returned? ==>
              && Allowed(messages, r.value.discarded) && Fits(messages, r.value.discarded, format, count, max)
              && (forall d :: 0 <= d < r.value.discarded ==> !Fits(messages, d, format, count, max))
              && r.value.retained == Keep(messages, r.value.discarded)
              && Systems(r.value.retained) == Systems(messages)
              && Others(r.value.retained) == Others(messages)[r.value.discarded..]
              && r.value.text == format(r.value.retained, true)
              && r.value.tokenCount == count(r.value.text) <= max
    ensures r.Threw? <==>
              messages == [] || max == 0 || forall d: nat :: Allowed(messages, d) ==>
                  !Fits(messages, d, format, count, max)
    ensures r.Threw? ==> r.error == InvalidArgument
  {
    if messages == [] {
      return Threw(InvalidArgument);
    }
    if max == 0 {
      return Threw(InvalidArgument);
    }
    var retained := messages;
    var discarded := 0;
    while true
      invariant Allowed(messages, discarded) && retained == Keep(messages, discarded)
      invariant forall d :: 0 <= d < discarded ==> !Fits(messages, d, format, count, max)
      decreases |messages| - discarded
    {
      var text := format(retained, true);
      var tokenCount := count(text);
      if tokenCount <= max {
        KeepDropsOldest(messages, discarded);
        return Returned(Prompt(text, retained, tokenCount, discarded));
      }
      var candidate := FirstOther(retained);
      NoneOrOneMore(messages, discarded);
      if candidate == |retained| {
        return Threw(InvalidArgument);
      }
      if |retained| == 1 {
        return Threw(InvalidArgument);
      }
      retained := Erase(retained, candidate);
      discarded := discarded + 1;
    }
  }

  /** The two tests of the loop: either no larger number is allowed, or the next one is. */
  lemma {:induction false} NoneOrOneMore(messages: seq<Message>, d: nat)
    requires Allowed(messages, d)
    ensures var retained := Keep(messages, d);
            if FirstOther(retained) == |retained| || |retained| == 1
            then forall e: nat :: Allowed(messages, e) ==> e <= d
            else Allowed(messages, d + 1) && Erase(retained, FirstOther(retained)) == Keep(messages, d + 1)
  {
    var retained := Keep(messages, d);
    KeepDropsOldest(messages, d);
    FirstOtherExists(retained);
    if FirstOther(retained) < |retained| && |retained| != 1 {
      EraseFirst(retained);
      KeepOneMore(messages, d);
    }
  }
}
