/** The Friend model: a table of directed edges (sender, receiver), keyed by
    the pair, each carrying a request status (false: pending, true:
    accepted). An edge goes from absent to pending (or straight to
    accepted) by request, from pending to accepted by acceptRequest, and
    back to absent by remove.

    Listings return the other user of each edge and its status; the
    profile columns the code joins in from the users table are dropped.
    The database leaves the order of those listings open; this model lists
    usernames in ascending lexicographic order. An empty string stands for
    a missing (falsy) username. */
module Friends {
  import opened Errors
  import Text
  import Ordering

  type Edges = map<(string, string), bool>

  /** The row request and get return. */
  datatype FriendRequest = FriendRequest(sender: string, receiver: string, requestStatus: bool)

  /** A listing row: the other user of the edge and its status. */
  datatype Counterpart = Counterpart(requestStatus: bool, username: string)

  /** Friend.get: the edge in exactly this direction. */
  function Get(edges: Edges, sender: string, receiver: string): (r: Result<FriendRequest>)
    ensures r.Ok? <==> (sender, receiver) in edges
    ensures r.Ok? ==> r.value.sender == sender && r.value.receiver == receiver
    ensures r.Ok? ==> r.value.requestStatus == edges[(sender, receiver)]
    ensures r.Err? ==> r.error == NotFoundError("No friendship found")
  {
    if (sender, receiver) in edges then Ok(FriendRequest(sender, receiver, edges[(sender, receiver)]))
    else Err(NotFoundError("No friendship found"))
  }

  /** The receivers of the edges from `sender` with this status. */
  function ReceiversOf(edges: Edges, sender: string, status: bool): (users: set<string>)
    ensures forall u :: u in users <==> (sender, u) in edges && edges[(sender, u)] == status
  {
    var users := set p | p in edges.Keys && p.0 == sender && edges[p] == status :: p.1;
    assert forall u :: (sender, u) in edges && edges[(sender, u)] == status ==> u in users by {
      forall u | (sender, u) in edges && edges[(sender, u)] == status
        ensures u in users
      {
        var p := (sender, u);
        assert p in edges.Keys && p.0 == sender;
      }
    }
    users
  }

  /** The senders of the edges into `receiver` with this status. */
  function SendersOf(edges: Edges, receiver: string, status: bool): (users: set<string>)
    ensures forall u :: u in users <==> (u, receiver) in edges && edges[(u, receiver)] == status
  {
    var users := set p | p in edges.Keys && p.1 == receiver && edges[p] == status :: p.0;
    assert forall u :: (u, receiver) in edges && edges[(u, receiver)] == status ==> u in users by {
      forall u | (u, receiver) in edges && edges[(u, receiver)] == status
        ensures u in users
      {
        var p := (u, receiver);
        assert p in edges.Keys && p.1 == receiver;
      }
    }
    users
  }

  /** The listing rows for these users, in ascending username order. */
  function Listing(users: set<string>, status: bool): (r: seq<Counterpart>)
    ensures forall c :: c in r <==> c.requestStatus == status && c.username in users
    ensures forall i, j :: 0 <= i < j < |r| ==> Text.LexLess(r[i].username, r[j].username)
    ensures |r| == |users|
  {
    var names := Ordering.SortedStrings(users);
    var r := seq(|names|, k requires 0 <= k < |names| => Counterpart(status, names[k]));
    assert forall c: Counterpart :: c.requestStatus == status && c.username in users ==> c in r by {
      forall c: Counterpart | c.requestStatus == status && c.username in users
        ensures c in r
      {
        var k :| 0 <= k < |names| && names[k] == c.username;
        assert r[k] == c;
      }
    }
    r
  }

  /** Friend.findAllRequestBySender: the receivers of `sender`'s requests
      whose status is `status` (pending by default). */
  function FindAllRequestBySender(edges: Edges, sender: string, status: bool := false): (r: seq<Counterpart>)
    ensures forall c :: c in r ==> c.requestStatus == status
    ensures forall u :: Counterpart(status, u) in r <==> (sender, u) in edges && edges[(sender, u)] == status
    ensures forall i, j :: 0 <= i < j < |r| ==> Text.LexLess(r[i].username, r[j].username)
  {
    Listing(ReceiversOf(edges, sender, status), status)
  }

  /** Friend.findAllRequestByReceiver: the senders of the requests made to
      `receiver` whose status is `status` (pending by default). */
  function FindAllRequestByReceiver(edges: Edges, receiver: string, status: bool := false): (r: seq<Counterpart>)
    ensures forall c :: c in r ==> c.requestStatus == status
    ensures forall u :: Counterpart(status, u) in r <==> (u, receiver) in edges && edges[(u, receiver)] == status
    ensures forall i, j :: 0 <= i < j < |r| ==> Text.LexLess(r[i].username, r[j].username)
  {
    Listing(SendersOf(edges, receiver, status), status)
  }

  /** Friend.findAllFriends: the accepted requests `user` sent, then the
      accepted requests `user` received. */
  function FindAllFriends(edges: Edges, user: string): (r: seq<Counterpart>)
    ensures forall c :: c in r ==> c.requestStatus
    ensures forall u :: Counterpart(true, u) in r <==>
      ((user, u) in edges && edges[(user, u)]) || ((u, user) in edges && edges[(u, user)])
  {
    FindAllRequestBySender(edges, user, true) + FindAllRequestByReceiver(edges, user, true)
  }

  /** c names the receiver of a request `user` sent that was accepted. */
  predicate SentAccepted(edges: Edges, user: string, c: Counterpart)
  {
    (user, c.username) in edges && edges[(user, c.username)]
  }

  /** c names the sender of a request to `user` that was accepted. */
  predicate ReceivedAccepted(edges: Edges, user: string, c: Counterpart)
  {
    (c.username, user) in edges && edges[(c.username, user)]
  }

  /** findAllFriends lists the accepted requests `user` sent first, then
      the accepted requests `user` received: the first k rows, k the number
      of sent ones, name receivers of `user`'s edges, the rest senders of
      edges into `user`. */
  lemma FriendsSentFirst(edges: Edges, user: string)
    ensures
      var r := FindAllFriends(edges, user);
      var k := |ReceiversOf(edges, user, true)|;
      && |r| == k + |SendersOf(edges, user, true)|
      && (forall i :: 0 <= i < k ==> SentAccepted(edges, user, r[i]))
      && (forall i :: k <= i < |r| ==> ReceivedAccepted(edges, user, r[i]))
  {
    var sent := FindAllRequestBySender(edges, user, true);
    var received := FindAllRequestByReceiver(edges, user, true);
    forall c | c in sent
      ensures SentAccepted(edges, user, c)
    {
      assert c == Counterpart(true, c.username);
    }
    forall c | c in received
      ensures ReceivedAccepted(edges, user, c)
    {
      assert c == Counterpart(true, c.username);
    }
    var r := sent + received;
    forall i | 0 <= i < |sent|
      ensures SentAccepted(edges, user, r[i])
    {
      assert r[i] == sent[i];
    }
    forall i | |sent| <= i < |r|
      ensures ReceivedAccepted(edges, user, r[i])
    {
      assert r[i] == received[i - |sent|];
    }
  }

  /** The two listings describe the same edges from their two ends. */
  lemma SenderReceiverMirror(edges: Edges, sender: string, receiver: string, status: bool)
    ensures Counterpart(status, receiver) in FindAllRequestBySender(edges, sender, status)
        <==> Counterpart(status, sender) in FindAllRequestByReceiver(edges, receiver, status)
  {
  }

  /** No row of s appears twice. */
  predicate NoRepeat(s: seq<Counterpart>)
  {
    forall i, j :: 0 <= i < j < |s| ==> s[i] != s[j]
  }

  /** A listing in strictly ascending username order repeats no row. */
  lemma NoRepeats(s: seq<Counterpart>)
    requires forall i, j :: 0 <= i < j < |s| ==> Text.LexLess(s[i].username, s[j].username)
    ensures NoRepeat(s)
  {
    forall i, j | 0 <= i < j < |s|
      ensures s[i] != s[j]
    {
      Text.LexIrreflexive(s[i].username);
    }
  }

  /** In two repeat-free sequences joined, a row appears twice exactly
      when it is in both. */
  lemma TwiceInJoin(a: seq<Counterpart>, b: seq<Counterpart>, c: Counterpart)
    requires NoRepeat(a) && NoRepeat(b)
    ensures (exists i, j :: 0 <= i < j < |a + b| && (a + b)[i] == c && (a + b)[j] == c) <==> c in a && c in b
  {
    var r := a + b;
    if c in a && c in b {
      var i :| 0 <= i < |a| && a[i] == c;
      var j :| 0 <= j < |b| && b[j] == c;
      assert r[i] == c && r[|a| + j] == c;
    }
    forall i, j | 0 <= i < j < |r| && r[i] == c && r[j] == c
      ensures c in a && c in b
    {
      assert i < |a| <= j;
      assert a[i] == c && b[j - |a|] == c;
    }
  }

  /** A user whose friendship is accepted in both directions is listed
      twice by findAllFriends, and only then. */
  lemma FriendListedTwice(edges: Edges, user: string, u: string)
    ensures
      var r := FindAllFriends(edges, user);
      (exists i, j :: 0 <= i < j < |r| && r[i] == Counterpart(true, u) && r[j] == Counterpart(true, u))
      <==> ((user, u) in edges && edges[(user, u)]) && ((u, user) in edges && edges[(u, user)])
  {
    var sent := FindAllRequestBySender(edges, user, true);
    var received := FindAllRequestByReceiver(edges, user, true);
    NoRepeats(sent);
    NoRepeats(received);
    TwiceInJoin(sent, received, Counterpart(true, u));
  }

  /** Two repeat-free listings joined repeat no row three times. */
  lemma NoTriple(a: seq<Counterpart>, b: seq<Counterpart>)
    requires NoRepeat(a) && NoRepeat(b)
    ensures forall i, j, k :: 0 <= i < j < k < |a + b| ==> (a + b)[i] != (a + b)[j] || (a + b)[j] != (a + b)[k]
  {
    forall i, j, k | 0 <= i < j < k < |a + b|
      ensures (a + b)[i] != (a + b)[j] || (a + b)[j] != (a + b)[k]
    {
      if j < |a| {
        assert (a + b)[i] == a[i] && (a + b)[j] == a[j];
      } else {
        assert (a + b)[j] == b[j - |a|] && (a + b)[k] == b[k - |a|];
      }
    }
  }

  /** Nobody is listed more than twice by findAllFriends. */
  lemma FriendsListedAtMostTwice(edges: Edges, user: string)
    ensures
      var r := FindAllFriends(edges, user);
      forall i, j, k :: 0 <= i < j < k < |r| ==> r[i] != r[j] || r[j] != r[k]
  {
    var sent := FindAllRequestBySender(edges, user, true);
    var received := FindAllRequestByReceiver(edges, user, true);
    NoRepeats(sent);
    NoRepeats(received);
    NoTriple(sent, received);
  }

  class FriendTable {
    var edges: Edges

    constructor ()
      ensures edges == map[]
    {
      edges := map[];
    }

    /** Friend.request: needs both users; inserts the edge (sender,
        receiver) with the given status, pending by default. The friends
        schema is not part of this model; the model assumes the pair is the
        table's composite key, so that a second request in the same
        direction is rejected by the database. */
    method Request(sender: string, receiver: string, requestStatus: bool := false) returns (r: Result<FriendRequest>)
      modifies this
      ensures sender == "" || receiver == "" ==>
        r == Err(BadRequestError("Needs a sender or receiver")) && unchanged(this)
      ensures sender != "" && receiver != "" && (sender, receiver) in old(edges) ==>
        r == Err(DatabaseError) && unchanged(this)
      ensures sender != "" && receiver != "" && (sender, receiver) !in old(edges) ==>
        && edges == old(edges)[(sender, receiver) := requestStatus]
        && r == Ok(FriendRequest(sender, receiver, requestStatus))
    {
      if sender == "" || receiver == "" {
        return Err(BadRequestError("Needs a sender or receiver"));
      }
      if (sender, receiver) in edges {
        return Err(DatabaseError);
      }
      edges := edges[(sender, receiver) := requestStatus];
      r := Ok(FriendRequest(sender, receiver, requestStatus));
    }

    /** Friend.acceptRequest: marks the (sender, receiver) edge accepted and
        returns it as seen from the receiver; nothing, and no error, when
        there is no such edge. */
    method AcceptRequest(sender: string, receiver: string) returns (r: Option<Counterpart>)
      modifies this
      ensures (sender, receiver) in old(edges) ==>
        edges == old(edges)[(sender, receiver) := true] && r == Some(Counterpart(true, sender))
      ensures (sender, receiver) !in old(edges) ==> r == None && unchanged(this)
    {
      if (sender, receiver) !in edges {
        return None;
      }
      edges := edges[(sender, receiver) := true];
      r := Some(Counterpart(true, sender));
    }

    /** Friend.remove: deletes the (sender, receiver) edge, or reports that
        there is none. */
    method Remove(sender: string, receiver: string) returns (r: Result<()>)
      modifies this
      ensures (sender, receiver) in old(edges) ==> r == Ok(()) && edges == old(edges) - {(sender, receiver)}
      ensures (sender, receiver) !in old(edges) ==>
        r == Err(NotFoundError(sender + " to " + receiver + " request not found")) && unchanged(this)
    {
      if (sender, receiver) !in edges {
        return Err(NotFoundError(sender + " to " + receiver + " request not found"));
      }
      edges := edges - {(sender, receiver)};
      r := Ok(());
    }
  }

  /** After a request, get finds the new edge in its direction and no
      other; a pending request shows in both users' pending listings. */
  lemma RequestObservable(edges: Edges, sender: string, receiver: string, status: bool)
    requires (sender, receiver) !in edges
    ensures
      var after := edges[(sender, receiver) := status];
      && Get(after, sender, receiver) == Ok(FriendRequest(sender, receiver, status))
      && (sender != receiver && (receiver, sender) !in edges ==> Get(after, receiver, sender).Err?)
      && Counterpart(status, receiver) in FindAllRequestBySender(after, sender, status)
      && Counterpart(status, sender) in FindAllRequestByReceiver(after, receiver, status)
      && (!status ==> Counterpart(true, receiver) !in FindAllFriends(after, sender) ||
                      (receiver, sender) in edges)
  {
  }

  /** Accepting a pending request moves it from both pending listings to
      both users' friend lists; unless the reverse request was already
      accepted, the two were not listed as friends before. */
  lemma AcceptObservable(edges: Edges, sender: string, receiver: string)
    requires (sender, receiver) in edges && !edges[(sender, receiver)]
    ensures
      var after := edges[(sender, receiver) := true];
      && Counterpart(false, receiver) in FindAllRequestBySender(edges, sender)
      && Counterpart(false, receiver) !in FindAllRequestBySender(after, sender)
      && Counterpart(false, sender) !in FindAllRequestByReceiver(after, receiver)
      && (((receiver, sender) !in edges || !edges[(receiver, sender)]) ==>
            Counterpart(true, receiver) !in FindAllFriends(edges, sender))
      && Counterpart(true, receiver) in FindAllFriends(after, sender)
      && Counterpart(true, sender) in FindAllFriends(after, receiver)
  {
  }

  /** After remove, get in that direction reports no friendship, and the
      edge no longer lists either user. */
  lemma RemoveObservable(edges: Edges, sender: string, receiver: string, status: bool)
    requires (sender, receiver) in edges
    ensures
      var after := edges - {(sender, receiver)};
      && Get(after, sender, receiver) == Err(NotFoundError("No friendship found"))
      && Counterpart(status, receiver) !in FindAllRequestBySender(after, sender, status)
      && Counterpart(status, sender) !in FindAllRequestByReceiver(after, receiver, status)
  {
  }
}
