/** Whole-message references (`src/conversation_views.rs`). A message is a JSON
    object; the parts that folding never reads stay as JSON text. */
module ConversationViews {
  import opened Text

  /** `Marked` is any object with a `same_as_message` member: its value when that
      is an unsigned integer, and the rest of the object. */
  datatype Content = Plain(text: string) | Marked(source: Option<nat>, rest: string) | Other(json: string)

  datatype Message = Message(role: Option<string>, cached: bool, content: Content, rest: string)

  /** Characters of a text: its UTF-8 bytes that do not continue a character. */
  function Characters(s: string): nat {
    if s == "" then 0
    else (if 0x80 <= s[0] as nat < 0xC0 then 0 else 1) + Characters(s[1..])
  }

  predicate LongEnough(text: string) {
    |Lines(text)| >= 3 && Characters(text) >= 40
  }

  /** A tool message without cache control whose text is worth a reference. */
  predicate Eligible(m: Message) {
    m.role == Some("tool") && !m.cached && m.content.Plain? && LongEnough(m.content.text)
  }

  function Reference(source: nat): Content {
    Marked(Some(source), "")
  }

  predicate AnyMarked(messages: seq<Message>) {
    exists i :: 0 <= i < |messages| && messages[i].content.Marked?
  }

  // ----- fold

  /** The first eligible message with this text among the first `i`. */
  ghost predicate IsFirst(messages: seq<Message>, source: nat, text: string, i: nat) {
    source < i <= |messages| && Eligible(messages[source]) && messages[source].content.text == text
    && forall k :: 0 <= k < source && Eligible(messages[k]) ==> messages[k].content.text != text
  }

  ghost predicate Repeats(messages: seq<Message>, i: nat)
    requires i < |messages|
  {
    Eligible(messages[i]) && exists source: nat :: IsFirst(messages, source, messages[i].content.text, i)
  }

  ghost predicate AnyRepeats(messages: seq<Message>, i: nat)
    requires i <= |messages|
  {
    i > 0 && (Repeats(messages, i - 1) || AnyRepeats(messages, i - 1))
  }

  lemma {:induction false} AnyRepeatsIs(messages: seq<Message>, i: nat)
    requires i <= |messages|
    ensures AnyRepeats(messages, i) <==> exists k :: 0 <= k < i && Repeats(messages, k)
  {
    if i > 0 {
      AnyRepeatsIs(messages, i - 1);
    }
  }

  /** What folding may do to message `i`: a repeated eligible text refers to its
      first occurrence, everything else stays as it is. */
  ghost predicate FoldedAt(messages: seq<Message>, folded: seq<Message>, i: nat)
    requires i < |messages| == |folded|
  {
    if Repeats(messages, i) then
      exists source: nat :: IsFirst(messages, source, messages[i].content.text, i)
                       && folded[i] == messages[i].(content := Reference(source))
    else folded[i] == messages[i]
  }

  ghost predicate Folds(messages: seq<Message>, folded: seq<Message>) {
    |folded| == |messages| && forall i :: 0 <= i < |messages| ==> FoldedAt(messages, folded, i)
  }

  /** `earlier` maps each eligible text among the first `i` to its first message. */
  ghost predicate Knows(earlier: map<string, nat>, messages: seq<Message>, i: nat) {
    i <= |messages|
    && (forall text :: text in earlier ==> IsFirst(messages, earlier[text], text, i))
    && (forall k :: 0 <= k < i && Eligible(messages[k]) ==> messages[k].content.text in earlier)
  }

  lemma KnowsNext(earlier: map<string, nat>, messages: seq<Message>, i: nat)
    requires i < |messages| && Knows(earlier, messages, i)
    ensures Eligible(messages[i]) && messages[i].content.text !in earlier ==>
              Knows(earlier[messages[i].content.text := i], messages, i + 1)
    ensures !Eligible(messages[i]) || messages[i].content.text in earlier ==>
              Knows(earlier, messages, i + 1)
  {
  }

  lemma RepeatsIfKnown(earlier: map<string, nat>, messages: seq<Message>, i: nat)
    requires i < |messages| && Knows(earlier, messages, i)
    ensures Repeats(messages, i) <==> Eligible(messages[i]) && messages[i].content.text in earlier
    ensures Repeats(messages, i) ==> IsFirst(messages, earlier[messages[i].content.text], messages[i].content.text, i)
  {
    if Eligible(messages[i]) && messages[i].content.text in earlier {
      assert IsFirst(messages, earlier[messages[i].content.text], messages[i].content.text, i);
    }
  }

  /** `fold`: `None` when the window is returned unchanged. The inverse check
      succeeds on every window that has a repetition, so that only the saving of
      the folded window, `pays`, can still refuse it. */
  method Fold(messages: seq<Message>, pays: seq<Message> -> bool) returns (view: Option<seq<Message>>)
    ensures view.Some? ==> !AnyMarked(messages) && exists i :: 0 <= i < |messages| && Repeats(messages, i)
    ensures view.Some? ==> Folds(messages, view.value) && Expanded(view.value) == Ok(messages) && pays(view.value)
    ensures view.None? && !AnyMarked(messages) && (exists i :: 0 <= i < |messages| && Repeats(messages, i)) ==>
              exists folded :: Folds(messages, folded) && !pays(folded)
  {
    if AnyMarked(messages) {
      return None;
    }
    var folded, changed := FoldWindow(messages);
    AnyRepeatsIs(messages, |messages|);
    if !changed {
      return None;
    }
    var restored := Expand(folded);
    InverseHolds(messages, folded, 0);
    assert messages[..0] + folded[0..] == folded;
    view := if restored == Ok(messages) && pays(folded) then Some(folded) else None;
  }

  method FoldWindow(messages: seq<Message>) returns (folded: seq<Message>, changed: bool)
    ensures Folds(messages, folded)
    ensures changed <==> AnyRepeats(messages, |messages|)
  {
    folded, changed := messages, false;
    var earlier: map<string, nat> := map[];
    var index := 0;
    while index < |messages|
      invariant index <= |messages| && Knows(earlier, messages, index)
      invariant FoldedTo(messages, folded, index)
      invariant changed <==> AnyRepeats(messages, index)
    {
      var source;
      ghost var before := folded;
      source, earlier := Look(messages, index, earlier);
      if source.Some? {
        folded := folded[index := folded[index].(content := Reference(source.value))];
        changed := true;
      }
      FoldedStep(messages, before, folded, index, source);
      index := index + 1;
    }
  }

  /** The first message with the text of message `index`, and the map after it. */
  method Look(messages: seq<Message>, index: nat, earlier: map<string, nat>)
    returns (source: Option<nat>, known: map<string, nat>)
    requires index < |messages| && Knows(earlier, messages, index)
    ensures Knows(known, messages, index + 1)
    ensures source.Some? <==> Repeats(messages, index)
    ensures source.Some? ==> IsFirst(messages, source.value, messages[index].content.text, index)
  {
    source, known := None, earlier;
    RepeatsIfKnown(earlier, messages, index);
    KnowsNext(earlier, messages, index);
    if Eligible(messages[index]) {
      var text := messages[index].content.text;
      if text in earlier {
        source := Some(earlier[text]);
      } else {
        known := earlier[text := index];
      }
    }
  }

  ghost predicate FoldedTo(messages: seq<Message>, folded: seq<Message>, index: nat) {
    index <= |messages| == |folded|
    && (forall i :: 0 <= i < index ==> FoldedAt(messages, folded, i))
    && folded[index..] == messages[index..]
  }

  lemma FoldedStep(messages: seq<Message>, before: seq<Message>, after: seq<Message>, index: nat, source: Option<nat>)
    requires index < |messages| && FoldedTo(messages, before, index)
    requires source.Some? <==> Repeats(messages, index)
    requires source.Some? ==> IsFirst(messages, source.value, messages[index].content.text, index)
    requires after == if source.None? then before
                      else before[index := before[index].(content := Reference(source.value))]
    ensures FoldedTo(messages, after, index + 1)
  {
    assert before[index] == before[index..][0] == messages[index];
    assert after[index + 1..] == before[index..][1..];
    assert FoldedAt(messages, after, index);
    forall i | 0 <= i < index
      ensures FoldedAt(messages, after, i)
    {
      assert FoldedAt(messages, before, i) && after[i] == before[i];
    }
  }

  // ----- expand

  /** Message `i` once the earlier ones are restored. */
  function RestoredAt(messages: seq<Message>, i: nat): Result<Message>
    requires i < |messages|
  {
    var content := messages[i].content;
    if !content.Marked? || content.source.None? then Ok(messages[i])
    else
      var source := content.source.value;
      if source >= i || !messages[source].content.Plain? then Err
      else Ok(messages[i].(content := messages[source].content))
  }

  function ExpandedFrom(messages: seq<Message>, i: nat): Result<seq<Message>>
    requires i <= |messages|
    decreases |messages| - i
  {
    if i == |messages| then Ok(messages)
    else
      match RestoredAt(messages, i)
      case Err => Err
      case Ok(message) => ExpandedFrom(messages[i := message], i + 1)
  }

  function Expanded(messages: seq<Message>): Result<seq<Message>> {
    ExpandedFrom(messages, 0)
  }

  method Expand(view: seq<Message>) returns (result: Result<seq<Message>>)
    ensures result == Expanded(view)
  {
    var messages, i := view, 0;
    while i < |messages|
      invariant i <= |messages|
      invariant Expanded(view) == ExpandedFrom(messages, i)
      decreases |messages| - i
    {
      match RestoredAt(messages, i) {
        case Err => return Err;
        case Ok(message) => messages := messages[i := message];
      }
      i := i + 1;
    }
    result := Ok(messages);
  }

  // ----- which views are restored

  predicate IsReference(m: Message) {
    m.content.Marked? && m.content.source.Some?
  }

  /** A plain text, or a reference to an earlier message that has a text. */
  predicate HasText(view: seq<Message>, i: nat)
    requires i < |view|
  {
    match view[i].content
    case Plain(_) => true
    case Marked(source, _) => source.Some? && source.value < i && HasText(view, source.value)
    case Other(_) => false
  }

  function TextAt(view: seq<Message>, i: nat): string
    requires i < |view| && HasText(view, i)
  {
    match view[i].content
    case Plain(text) => text
    case Marked(source, _) => TextAt(view, source.value)
  }

  function MeaningAt(view: seq<Message>, i: nat): Message
    requires i < |view|
  {
    if IsReference(view[i]) && HasText(view, i) then view[i].(content := Plain(TextAt(view, i))) else view[i]
  }

  /** The messages before `i` are restored, and the others as in the view. */
  predicate RestoredTo(view: seq<Message>, messages: seq<Message>, i: nat) {
    i <= |view| == |messages|
    && (forall k :: 0 <= k < i ==> messages[k] == MeaningAt(view, k) && (IsReference(view[k]) ==> HasText(view, k)))
    && forall k :: i <= k < |view| ==> messages[k] == view[k]
  }

  lemma {:induction false} RestoresFrom(view: seq<Message>, messages: seq<Message>, i: nat)
    requires RestoredTo(view, messages, i)
    ensures ExpandedFrom(messages, i).Ok? <==> forall k :: i <= k < |view| && IsReference(view[k]) ==> HasText(view, k)
    ensures ExpandedFrom(messages, i).Ok? ==> RestoredTo(view, ExpandedFrom(messages, i).value, |view|)
    decreases |view| - i
  {
    if i < |view| {
      RestoresOne(view, messages, i);
      if IsReference(view[i]) ==> HasText(view, i) {
        RestoresFrom(view, messages[i := MeaningAt(view, i)], i + 1);
      }
    }
  }

  lemma RestoresOne(view: seq<Message>, messages: seq<Message>, i: nat)
    requires i < |view| && RestoredTo(view, messages, i)
    ensures RestoredAt(messages, i)
            == if IsReference(view[i]) ==> HasText(view, i) then Ok(MeaningAt(view, i)) else Err
  {
    assert messages[i] == view[i];
    if IsReference(view[i]) && view[i].content.source.value < i {
      var source := view[i].content.source.value;
      assert messages[source] == MeaningAt(view, source);
      assert messages[source].content.Plain? <==> HasText(view, source);
    }
  }

  /** A view is restored if and only if every reference leads, through earlier
      messages only, to a text; each reference then becomes that text. */
  lemma ExpandedIffTexts(view: seq<Message>)
    ensures Expanded(view).Ok? <==> forall i :: 0 <= i < |view| && IsReference(view[i]) ==> HasText(view, i)
    ensures Expanded(view).Ok? ==>
              |Expanded(view).value| == |view|
              && forall i :: 0 <= i < |view| ==> Expanded(view).value[i] == MeaningAt(view, i)
  {
    RestoresFrom(view, view, 0);
  }

  lemma {:induction false} InverseHolds(messages: seq<Message>, folded: seq<Message>, i: nat)
    requires !AnyMarked(messages) && Folds(messages, folded) && i <= |messages|
    ensures ExpandedFrom(messages[..i] + folded[i..], i) == Ok(messages)
    decreases |messages| - i
  {
    var current := messages[..i] + folded[i..];
    if i == |messages| {
      assert current == messages;
    } else {
      assert current[i] == folded[i] && FoldedAt(messages, folded, i);
      if Repeats(messages, i) {
        var source: nat :| IsFirst(messages, source, messages[i].content.text, i)
                      && folded[i] == messages[i].(content := Reference(source));
        assert current[source] == messages[source];
      }
      assert RestoredAt(current, i) == Ok(messages[i]);
      assert current[i := messages[i]] == messages[..i + 1] + folded[i + 1..];
      InverseHolds(messages, folded, i + 1);
    }
  }

  /** A message that folding may refer to, or replace: the result of a tool, not
      under cache control, of at least three lines and forty characters. */
  ghost predicate IsToolText(m: Message, text: string) {
    m.role == Some("tool") && !m.cached && m.content == Plain(text) && |Lines(text)| >= 3 && Characters(text) >= 40
  }

  /** Message `i` becomes a reference exactly when an earlier tool message has
      its text, and then to the first one. */
  lemma FoldedIffRepeated(messages: seq<Message>, folded: seq<Message>, i: nat, text: string)
    requires Folds(messages, folded) && i < |messages| && messages[i].content == Plain(text)
    ensures folded[i] != messages[i] <==>
            IsToolText(messages[i], text) && exists k :: 0 <= k < i && IsToolText(messages[k], text)
    ensures folded[i] != messages[i] ==>
              exists source: nat :: source < i && folded[i] == messages[i].(content := Marked(Some(source), ""))
                                    && IsToolText(messages[source], text)
                                    && forall k :: 0 <= k < source ==> !IsToolText(messages[k], text)
  {
    assert FoldedAt(messages, folded, i);
    assert forall k :: 0 <= k < |messages| ==>
        (IsToolText(messages[k], text) <==> Eligible(messages[k]) && messages[k].content.text == text);
    if Eligible(messages[i]) && exists k :: 0 <= k < i && IsToolText(messages[k], text) {
      FirstExists(messages, text, i);
    }
  }

  lemma {:induction false} FirstExists(messages: seq<Message>, text: string, i: nat)
    requires i <= |messages| && exists k :: 0 <= k < i && Eligible(messages[k]) && messages[k].content.text == text
    ensures exists source: nat :: IsFirst(messages, source, text, i)
  {
    var k: nat :| k < i && Eligible(messages[k]) && messages[k].content.text == text;
    if exists j :: 0 <= j < k && Eligible(messages[j]) && messages[j].content.text == text {
      FirstExists(messages, text, k);
      var source: nat :| IsFirst(messages, source, text, k);
      assert IsFirst(messages, source, text, i);
    } else {
      assert IsFirst(messages, k, text, i);
    }
  }

  /** Messages without a plain text stay as they are. */
  lemma OnlyTextIsFolded(messages: seq<Message>, folded: seq<Message>, i: nat)
    requires Folds(messages, folded) && i < |messages| && !messages[i].content.Plain?
    ensures folded[i] == messages[i]
  {
    assert FoldedAt(messages, folded, i);
  }

  /** A reference never points to a rewritten or protected message. */
  lemma ReferencesAreOriginals(messages: seq<Message>, folded: seq<Message>, i: nat)
    requires Folds(messages, folded) && i < |messages| && folded[i] != messages[i]
    ensures folded[i].content.Marked? && folded[i].content.source.Some?
    ensures var source := folded[i].content.source.value;
            source < i && folded[source] == messages[source] && !messages[source].cached
            && messages[source].content == messages[i].content && !messages[i].cached
  {
    assert FoldedAt(messages, folded, i);
    var source := folded[i].content.source.value;
    assert FoldedAt(messages, folded, source);
  }
}
