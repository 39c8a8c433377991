/** A worked run of the handler: three members of chat 7, the first two
    join, the third sends "hi" without ever joining. */
module Scenarios {
  import opened Models
  import opened Frames
  import opened Queries
  import opened WsHandlers

  const A := User(1, "A", "a@example.com")
  const B := User(2, "B", "b@example.com")
  const C := User(3, "C", "c@example.com")
  const ChatDb := Db([A, B, C], {(7, 1), (7, 2), (7, 3)})

  const Joined := State(map[1 := 10, 2 := 11], [], {}, [])
  const Stored := Joined.(store := [Message(1, 7, 3, "hi")])
  const Delivered := Stored.(log := [Ping(10), Send(10, Broadcast(NewMessageType, A.email, "hi")),
                                     Ping(11), Send(11, Broadcast(NewMessageType, B.email, "hi"))])

  lemma ScenarioRecipients()
    ensures Recipients(ChatDb, 7, 3) == [1, 2]
  {
    assert MatchedUsers([C], ChatDb.members, 7, 3) == [];
    assert MatchedUsers([B, C], ChatDb.members, 7, 3) == [B];
    assert MatchedUsers([A, B, C], ChatDb.members, 7, 3) == [A, B];
  }

  /** The fan-out of the worked send: a ping and a frame to each of the two
      online members, each frame naming its recipient's address. */
  lemma ScenarioDeliver()
    ensures Deliver(ChatDb, NoFaults, Stored, [1, 2], "hi") == Running(Delivered)
  {
    assert EmailOf(ChatDb.users, 1) == A.email;
    assert EmailOf(ChatDb.users[1..], 2) == B.email;
    var afterA := Stored.(log := Delivered.log[..2]);
    assert SendMessageToUser(ChatDb, NoFaults, Stored, 1, "hi") == Running(afterA);
    assert SendMessageToUser(ChatDb, NoFaults, afterA, 2, "hi") == Running(Delivered);
    assert [1, 2][1..] == [2];
    assert Deliver(ChatDb, NoFaults, Stored, [1, 2], "hi") == Deliver(ChatDb, NoFaults, afterA, [2], "hi");
  }

  /** The send: the message is stored, both online members get the frame,
      the sender gets nothing, and each frame names its recipient's address
      rather than the sender's. */
  lemma ScenarioSend()
    ensures HandleSendMessage(ChatDb, NoFaults, Joined, 7, 3, "hi") == Running(Delivered)
  {
    ScenarioRecipients();
    ScenarioDeliver();
    assert ChatUsersExcept(ChatDb, 7, 3, false) == Ok([1, 2]);
  }

  lemma OfflineSenderScenario()
    ensures
      var inputs := [Receive(10, Encode(JoinChat(7, 1))), Receive(11, Encode(JoinChat(7, 2))),
                     Receive(12, Encode(SendMessage(7, 3, "hi")))];
      Run(ChatDb, [NoFaults, NoFaults, NoFaults], State(map[], [], {}, []), inputs) == Running(Delivered)
  {
    var inputs := [Receive(10, Encode(JoinChat(7, 1))), Receive(11, Encode(JoinChat(7, 2))),
                   Receive(12, Encode(SendMessage(7, 3, "hi")))];
    var faults := [NoFaults, NoFaults, NoFaults];
    var s0 := State(map[], [], {}, []);
    var s1 := HandleJoinChat(s0, 10, 1);
    DecodeEncode(JoinChat(7, 1));
    DecodeEncode(JoinChat(7, 2));
    DecodeEncode(SendMessage(7, 3, "hi"));
    assert HandleJoinChat(s1, 11, 2) == Joined;
    ScenarioSend();
    assert Step(ChatDb, NoFaults, Joined, inputs[2]) == Running(Delivered);
    assert Run(ChatDb, faults[2..], Joined, inputs[2..]) == Running(Delivered);
    assert Step(ChatDb, NoFaults, s1, inputs[1]) == Running(Joined);
    assert Run(ChatDb, faults[1..], s1, inputs[1..]) == Running(Delivered);
    assert Step(ChatDb, NoFaults, s0, inputs[0]) == Running(s1);
  }

  /** A user joins, hangs up, and joins again from a new connection: the
      second join finds the stale entry and the server goes down, with the
      first registration still in place. */
  lemma ReconnectScenario()
    ensures
      var inputs := [Receive(10, Encode(JoinChat(7, 1))), Hangup(10), Receive(11, Encode(JoinChat(7, 1)))];
      Run(ChatDb, [NoFaults, NoFaults, NoFaults], State(map[], [], {}, []), inputs) ==
        Aborted(State(map[1 := 10], [], {10}, []))
  {
    var inputs := [Receive(10, Encode(JoinChat(7, 1))), Hangup(10), Receive(11, Encode(JoinChat(7, 1)))];
    var faults := [NoFaults, NoFaults, NoFaults];
    var s1 := State(map[1 := 10], [], {}, []);
    var s2 := s1.(dead := {10});
    DecodeEncode(JoinChat(7, 1));
    assert Step(ChatDb, NoFaults, s2, inputs[2]) == Aborted(s2);
    assert Run(ChatDb, faults[2..], s2, inputs[2..]) == Aborted(s2);
    assert Step(ChatDb, NoFaults, s1, inputs[1]) == Running(s2);
    assert Run(ChatDb, faults[1..], s1, inputs[1..]) == Aborted(s2);
    assert Step(ChatDb, NoFaults, State(map[], [], {}, []), inputs[0]) == Running(s1);
  }
}
