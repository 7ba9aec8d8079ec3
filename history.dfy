/**
 The transcript and its persistence. The key-value store holds the whole
 transcript under one fixed key; each message is numbered by the transcript
 length at the moment it is appended.
 */
module History {
  import opened ChatTypes

  /** The single key under which the transcript is stored. */
  const ChatHistoryKey: string := "chat_history"

  /** The key-value store, with its values already decoded. */
  type Store = map<string, seq<Message>>

  /** The transcript found at startup: the stored one if the key exists, otherwise empty. */
  function Load(store: Store): seq<Message>
  {
    if ChatHistoryKey in store then store[ChatHistoryKey] else []
  }

  /** Overwrites the transcript key; loading afterwards gives back exactly `h`. */
  function Save(store: Store, h: seq<Message>): (s: Store)
    ensures Load(s) == h
    ensures s.Keys == store.Keys + {ChatHistoryKey}
    ensures forall k :: k in store && k != ChatHistoryKey ==> s[k] == store[k]
  {
    store[ChatHistoryKey := h]
  }

  /** Saving twice in a row leaves what the second save writes: each save overwrites, never appends. */
  lemma SaveOverwrites(store: Store, h1: seq<Message>, h2: seq<Message>)
    ensures Save(Save(store, h1), h2) == Save(store, h2)
  {
  }

  /** The message a send creates: numbered one past the current transcript length. */
  function NextMessage(h: seq<Message>, username: string, timestamp: string, content: string): Message
  {
    Message(|h| + 1, username, timestamp, content)
  }

  /** Message ids are 1, 2, ..., |h| in transcript order. */
  ghost predicate Gapless(h: seq<Message>)
  {
    forall i :: 0 <= i < |h| ==> h[i].messageId == i + 1
  }

  /** In a gapless transcript ids strictly increase, so no two messages share one. */
  lemma GaplessIncreasing(h: seq<Message>, i: int, j: int)
    requires Gapless(h) && 0 <= i < j < |h|
    ensures h[i].messageId < h[j].messageId
  {
  }

  /** One send as seen by the transcript. */
  datatype SendEvent = SendEvent(username: string, timestamp: string, content: string)

  /** The transcript after the sends `evs`, processed in order. */
  function AppendSends(h: seq<Message>, evs: seq<SendEvent>): seq<Message>
    decreases |evs|
  {
    if evs == [] then h
    else AppendSends(h + [NextMessage(h, evs[0].username, evs[0].timestamp, evs[0].content)], evs[1..])
  }

  /**
   After the sends `evs`, the transcript is the old one followed by one message
   per send, the j-th numbered |h| + j + 1 and carrying that send's fields.
   */
  lemma {:induction false} AppendSendsSpec(h: seq<Message>, evs: seq<SendEvent>)
    ensures |AppendSends(h, evs)| == |h| + |evs|
    ensures AppendSends(h, evs)[..|h|] == h
    ensures forall j :: 0 <= j < |evs| ==>
      AppendSends(h, evs)[|h| + j] == Message(|h| + j + 1, evs[j].username, evs[j].timestamp, evs[j].content)
    decreases |evs|
  {
    if evs != [] {
      var h1 := h + [NextMessage(h, evs[0].username, evs[0].timestamp, evs[0].content)];
      AppendSendsSpec(h1, evs[1..]);
      var r := AppendSends(h, evs);
      assert r == AppendSends(h1, evs[1..]);
      assert r[..|h|] == r[..|h1|][..|h|];
      forall j | 0 <= j < |evs|
        ensures r[|h| + j] == Message(|h| + j + 1, evs[j].username, evs[j].timestamp, evs[j].content)
      {
        if j > 0 {
          assert r[|h1| + (j - 1)] == Message(|h1| + (j - 1) + 1, evs[1..][j - 1].username, evs[1..][j - 1].timestamp, evs[1..][j - 1].content);
        } else {
          assert r[|h|] == r[..|h1|][|h|];
        }
      }
    }
  }

  /** Starting from an empty transcript, k sends produce ids exactly 1..k in order. */
  lemma SendsFromEmpty(evs: seq<SendEvent>)
    ensures Gapless(AppendSends([], evs)) && |AppendSends([], evs)| == |evs|
  {
    AppendSendsSpec([], evs);
    var r := AppendSends([], evs);
    forall i | 0 <= i < |r|
      ensures r[i].messageId == i + 1
    {
      assert r[0 + i] == Message(0 + i + 1, evs[i].username, evs[i].timestamp, evs[i].content);
    }
  }

  /** One more send after `evs` appends exactly the message that send creates. */
  lemma {:induction false} AppendSendsSnoc(h: seq<Message>, evs: seq<SendEvent>, e: SendEvent)
    ensures AppendSends(h, evs + [e])
            == AppendSends(h, evs) + [NextMessage(AppendSends(h, evs), e.username, e.timestamp, e.content)]
    decreases |evs|
  {
    if evs == [] {
      assert [] + [e] == [e];
      assert [e][1..] == [];
    } else {
      var h1 := h + [NextMessage(h, evs[0].username, evs[0].timestamp, evs[0].content)];
      assert (evs + [e])[0] == evs[0];
      assert (evs + [e])[1..] == evs[1..] + [e];
      AppendSendsSnoc(h1, evs[1..], e);
    }
  }

  /** A send keeps a gapless transcript gapless. */
  lemma SendKeepsGapless(h: seq<Message>, username: string, timestamp: string, content: string)
    requires Gapless(h)
    ensures Gapless(h + [NextMessage(h, username, timestamp, content)])
  {
  }

  /** The frames that replay a transcript: one `Chat` frame per message. */
  function Replay(h: seq<Message>): seq<Frame>
  {
    if h == [] then [] else Replay(h[..|h| - 1]) + [Chat(h[|h| - 1])]
  }

  /** The replay carries the transcript's messages one per frame, in transcript order. */
  lemma {:induction false} ReplayAt(h: seq<Message>)
    ensures |Replay(h)| == |h|
    ensures forall k :: 0 <= k < |h| ==> Replay(h)[k] == Chat(h[k])
  {
    if h != [] {
      ReplayAt(h[..|h| - 1]);
    }
  }
}
