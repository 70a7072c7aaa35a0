/** The app's sockets: a listener and a two-slot connection table over the system's
    descriptors. */
module Sockets {
  import opened Bytes

  const LIMIT: nat := 2

  datatype Status = Done | ServerActive | AlreadyBound | SocketFailed | BindFailed | NotBound
                  | AcceptFailed | SocketLimit | ConnectFailed | InvalidSocket | SendFailed | RecvFailed

  /** The system's side. Every operation on a descriptor demands that it is open, so a
      descriptor is never used or closed after it was closed. */
  class Os {
    var open: set<int>
    /** Every byte it took to send, in order. */
    var taken: seq<byte>

    constructor ()
      ensures open == {} && taken == []
    {
      open, taken := {}, [];
    }

    /** socket or accept: `fd` is what the system answers, negative for a failure. */
    method Open(fd: int)
      requires fd < 0 || fd !in open
      modifies this`open
      ensures open == old(open) + if fd >= 0 then {fd} else {}
    {
      if fd >= 0 {
        open := open + {fd};
      }
    }

    method Close(fd: int)
      requires fd in open
      modifies this`open
      ensures open == old(open) - {fd}
    {
      open := open - {fd};
    }

    /** send: as many bytes as it answers, but no more than it was given. */
    method Send(fd: int, data: seq<byte>, answer: int) returns (n: int)
      requires fd in open
      modifies this`taken
      ensures n == if answer > |data| then |data| else answer
      ensures taken == old(taken) + if n > 0 then data[..n] else []
    {
      n := if answer > |data| then |data| else answer;
      taken := taken + if n > 0 then data[..n] else [];
    }

    /** setsockopt, bind, listen, connect, select and recv: an outcome, no change. */
    method Use(fd: int, outcome: int) returns (r: int)
      requires fd in open
      ensures r == outcome
    {
      r := outcome;
    }
  }

  /** The descriptors of a listener and a table, each held once. */
  ghost predicate Held(listener: int, conns: seq<int>) {
    && (forall i :: 0 <= i < |conns| ==> conns[i] >= -1 && (conns[i] >= 0 ==> conns[i] != listener))
    && (forall i, j :: 0 <= i < j < |conns| && conns[i] >= 0 ==> conns[i] != conns[j])
  }

  function Descriptors(listener: int, conns: seq<int>): set<int> {
    set fd | fd in [listener] + conns && fd >= 0
  }

  // ---- What the answers of send add up to ----

  function Total(answers: seq<int>): int {
    if answers == [] then 0 else Total(answers[..|answers| - 1]) + answers[|answers| - 1]
  }

  predicate Positive(answers: seq<int>) {
    forall i :: 0 <= i < |answers| ==> answers[i] > 0
  }

  /** Some of the answers, from the first on, are all positive and add up to the length. */
  ghost predicate Reaches(answers: seq<int>, length: nat) {
    exists k :: 0 <= k <= |answers| && ReachesAt(answers, k, length)
  }

  predicate ReachesAt(answers: seq<int>, k: nat, length: nat)
    requires k <= |answers|
  {
    Positive(answers[..k]) && Total(answers[..k]) >= length
  }

  lemma NoAnswers(answers: seq<int>)
    ensures Total(answers[..0]) == 0 && Positive(answers[..0])
  {
  }

  lemma TotalMore(answers: seq<int>, k: nat)
    requires k < |answers|
    ensures Total(answers[..k + 1]) == Total(answers[..k]) + answers[k]
    ensures Positive(answers[..k]) && answers[k] > 0 ==> Positive(answers[..k + 1])
  {
    assert answers[..k + 1][..k] == answers[..k];
  }

  lemma {:induction false} TotalGrows(answers: seq<int>, k: nat, m: nat)
    requires k <= m <= |answers| && Positive(answers[..m])
    ensures Total(answers[..k]) <= Total(answers[..m])
  {
    if k < m {
      assert answers[..m][m - 1] == answers[m - 1];
      assert Positive(answers[..m - 1]) by {
        assert forall i :: 0 <= i < m - 1 ==> answers[..m - 1][i] == answers[..m][i];
      }
      TotalMore(answers, m - 1);
      TotalGrows(answers, k, m - 1);
    }
  }

  lemma Reached(answers: seq<int>, k: nat, length: nat)
    requires k <= |answers| && Positive(answers[..k]) && Total(answers[..k]) >= length
    ensures Reaches(answers, length)
  {
    assert ReachesAt(answers, k, length);
  }

  /** A failure before the length is reached is final. */
  lemma FallsShort(answers: seq<int>, k: nat, length: nat)
    requires k <= |answers| && Positive(answers[..k]) && Total(answers[..k]) < length
    requires k == |answers| || answers[k] <= 0
    ensures !Reaches(answers, length)
  {
    forall m | 0 <= m <= |answers|
      ensures !ReachesAt(answers, m, length)
    {
      if m <= k {
        TotalGrows(answers, m, k);
      } else {
        assert answers[..m][k] == answers[k];
      }
    }
  }

  class Network {
    const os: Os
    var listener: int
    const conns: array<int>

    ghost predicate Valid()
      reads this, os, conns
    {
      && conns.Length == LIMIT && listener >= -1 && Held(listener, conns[..])
      && os.open == Descriptors(listener, conns[..])
    }

    constructor (system: Os)
      requires system.open == {}
      ensures Valid() && os == system && fresh(conns) && listener == -1
    {
      os := system;
      listener := -1;
      conns := new int[LIMIT](_ => -1);
    }

    /** net_sock_is_open */
    method IsOpen(sock: int) returns (r: bool)
      requires Valid()
      ensures r <==> sock >= 0 && sock in conns[..]
      ensures r ==> sock in os.open
    {
      for i := 0 to LIMIT
        invariant forall j :: 0 <= j < i ==> !(conns[j] == sock && sock >= 0)
      {
        if conns[i] == sock && sock >= 0 {
          return true;
        }
      }
      r := false;
    }

    /** The first free slot, -1 when the table is full. */
    method FreeSlot() returns (slot: int)
      requires Valid()
      ensures -1 <= slot < LIMIT && (slot >= 0 ==> conns[slot] == -1)
      ensures slot == -1 <==> forall i :: 0 <= i < LIMIT ==> conns[i] >= 0
    {
      for i := 0 to LIMIT
        invariant forall j :: 0 <= j < i ==> conns[j] >= 0
      {
        if conns[i] < 0 {
          return i;
        }
      }
      slot := -1;
    }

    /** net_bind_cb; `fd`, `bound` and `listening` are the system's answers. */
    method Bind(serverActive: bool, fd: int, bound: int, listening: int) returns (r: Status)
      requires Valid() && (fd < 0 || fd !in os.open)
      modifies this`listener, os`open
      ensures Valid() && (r.Done? <==> !serverActive && old(listener) < 0 && fd >= 0 && bound == 0 && listening == 0)
      ensures (r.ServerActive? <==> serverActive) && (r.AlreadyBound? <==> !serverActive && old(listener) >= 0)
      ensures r.SocketFailed? <==> !serverActive && old(listener) < 0 && fd < 0
      ensures r in {Done, ServerActive, AlreadyBound, SocketFailed, BindFailed}
      ensures os.open == if r.Done? then old(os.open) + {fd} else old(os.open)
      ensures listener == if r.Done? then fd else old(listener)
    {
      if serverActive {
        return ServerActive;
      }
      if listener >= 0 {
        return AlreadyBound;
      }
      os.Open(fd);
      if fd < 0 {
        return SocketFailed;
      }
      var b := os.Use(fd, bound);
      var ok := b == 0;
      if ok {
        var l := os.Use(fd, listening);
        ok := l == 0;
      }
      if !ok {
        os.Close(fd);
        return BindFailed;
      }
      listener := fd;
      NewListener(fd, conns[..]);
      r := Done;
    }

    method Store(slot: nat, fd: int)
      requires conns.Length == LIMIT && slot < LIMIT && conns[slot] == -1 && listener >= -1 && fd >= 0
      requires Held(listener, conns[..]) && fd !in Descriptors(listener, conns[..])
      requires os.open == Descriptors(listener, conns[..]) + {fd}
      modifies conns
      ensures Valid() && fd in conns[..]
    {
      ghost var was := conns[..];
      conns[slot] := fd;
      assert conns[..] == was[slot := fd];
      NewConnection(listener, was, slot, fd);
      assert conns[..][slot] == fd;
    }

    /** net_accept_cb: with the table full the new peer is closed again. */
    method Accept(ready: int, fd: int) returns (sock: int, r: Status)
      requires Valid() && (fd < 0 || fd !in os.open)
      modifies conns, os`open
      ensures Valid() && sock >= -1 && (sock >= 0 ==> sock == fd && fd in conns[..])
      ensures sock >= 0 <==> listener >= 0 && ready > 0 && fd >= 0 && -1 in old(conns[..])
      ensures (r.NotBound? <==> listener < 0) && (r.Done? <==> listener >= 0 && (ready <= 0 || sock >= 0))
      ensures (r.AcceptFailed? <==> listener >= 0 && ready > 0 && fd < 0) && (!r.SocketLimit? ==> r in {NotBound, Done, AcceptFailed})
      ensures os.open == if sock >= 0 then old(os.open) + {fd} else old(os.open)
      ensures sock < 0 ==> conns[..] == old(conns[..])
    {
      sock := -1;
      if listener < 0 {
        return -1, NotBound;
      }
      var slot := FreeSlot();
      assert slot >= 0 ==> conns[..][slot] == -1;
      var n := os.Use(listener, ready);
      if n <= 0 {
        return -1, Done;
      }
      os.Open(fd);
      if fd < 0 {
        return -1, AcceptFailed;
      }
      if slot < 0 {
        os.Close(fd);
        return -1, SocketLimit;
      }
      Store(slot, fd);
      sock, r := fd, Done;
    }

    /** net_connect_cb: `rc` is 0, positive for "in progress", negative for an error;
        `ready` and `pending` are what select and the socket's own error say after that. */
    method Connect(serverActive: bool, resolved: bool, fd: int, rc: int, ready: int, pending: int)
      returns (sock: int, r: Status)
      requires Valid() && (fd < 0 || fd !in os.open)
      modifies conns, os`open
      ensures Valid() && sock >= -1 && (sock >= 0 ==> sock == fd && fd in conns[..])
      ensures (r.Done? <==> sock >= 0) && (r.ServerActive? <==> serverActive)
      ensures r.SocketLimit? <==> !serverActive && -1 !in old(conns[..])
      ensures r.SocketFailed? <==> !serverActive && -1 in old(conns[..]) && resolved && fd < 0
      ensures r in {Done, ServerActive, SocketLimit, SocketFailed, ConnectFailed}
      ensures sock >= 0 <==> !serverActive && -1 in old(conns[..]) && resolved && fd >= 0
                             && (rc == 0 || (rc > 0 && ready > 0 && pending == 0))
      ensures os.open == if sock >= 0 then old(os.open) + {fd} else old(os.open)
      ensures sock < 0 ==> conns[..] == old(conns[..])
    {
      sock := -1;
      if serverActive {
        return -1, ServerActive;
      }
      var slot := FreeSlot();
      assert slot >= 0 ==> conns[..][slot] == -1;
      if slot < 0 {
        return -1, SocketLimit;
      }
      if !resolved {
        return -1, ConnectFailed;
      }
      os.Open(fd);
      if fd < 0 {
        return -1, SocketFailed;
      }
      var c := os.Use(fd, rc);
      if c > 0 {
        var n := os.Use(fd, ready);
        if n <= 0 {
          os.Close(fd);
          return -1, ConnectFailed;
        }
        var e := os.Use(fd, pending);
        if e != 0 {
          os.Close(fd);
          return -1, ConnectFailed;
        }
      } else if c != 0 {
        os.Close(fd);
        return -1, ConnectFailed;
      }
      Store(slot, fd);
      sock, r := fd, Done;
    }

    /** net_recv_cb: nothing in time is no error, and no bytes from a ready socket mean
        that the peer has closed. */
    method Receive(sock: int, ready: int, got: int) returns (len: nat, closed: bool, r: Status)
      requires Valid()
      ensures r.InvalidSocket? <==> !(sock >= 0 && sock in conns[..])
      ensures len == if !r.InvalidSocket? && ready > 0 && got >= 0 then got else 0
      ensures r.RecvFailed? <==> sock >= 0 && sock in conns[..] && ready > 0 && got < 0
      ensures r in {Done, InvalidSocket, RecvFailed}
      ensures closed <==> r.Done? && ready > 0 && len == 0
    {
      len, closed := 0, false;
      var known := IsOpen(sock);
      if !known {
        return 0, false, InvalidSocket;
      }
      var n := os.Use(sock, ready);
      if n <= 0 {
        return 0, false, Done;
      }
      var m := os.Use(sock, got);
      if m < 0 {
        return 0, false, RecvFailed;
      }
      len, closed, r := m, m == 0, Done;
    }

    /** net_send_cb: sends until everything is out; `answers` are the returns of send, and
        an answer that is missing counts as a failure. `used` of them were needed. */
    method Send(sock: int, data: seq<byte>, answers: seq<int>) returns (sent: nat, r: Status, ghost used: nat)
      requires Valid()
      modifies os`taken
      ensures Valid() && used <= |answers| && Positive(answers[..used])
      ensures sent <= |data| && os.taken == old(os.taken) + data[..sent]
      ensures r.InvalidSocket? <==> !(sock >= 0 && sock in conns[..])
      ensures r.InvalidSocket? ==> sent == 0
      ensures !r.InvalidSocket? ==> (r.Done? <==> Reaches(answers, |data|)) && (r.SendFailed? <==> !Reaches(answers, |data|))
      ensures r.Done? ==> sent == |data| && (used == 0 || Total(answers[..used - 1]) < |data|)
      ensures r.SendFailed? ==> sent == Total(answers[..used]) < |data| && (used == |answers| || answers[used] <= 0)
    {
      hide Total, Positive, Reaches, Held, Descriptors;
      sent, used := 0, 0;
      NoAnswers(answers);
      var known := IsOpen(sock);
      if !known {
        return 0, InvalidSocket, 0;
      }
      var k := 0;
      while sent < |data|
        invariant Valid() && k == used <= |answers| && Positive(answers[..k])
        invariant sent <= |data| && os.taken == old(os.taken) + data[..sent]
        invariant sent == Min(Total(answers[..k]), |data|)
        invariant k > 0 ==> Total(answers[..k - 1]) < |data|
        decreases |answers| - k
      {
        var n := os.Send(sock, data[sent..], if k < |answers| then answers[k] else -1);
        if n <= 0 {
          FallsShort(answers, k, |data|);
          return sent, SendFailed, k;
        }
        TotalMore(answers, k);
        assert data[..sent] + data[sent..][..n] == data[..sent + n];
        sent := sent + n;
        k := k + 1;
        used := k;
      }
      assert Reaches(answers, |data|) by { Reached(answers, k, |data|); }
      r := Done;
    }

    /** net_close_cb: -1 names the listener. */
    method Close(sock: int) returns (r: Status)
      requires Valid()
      modifies this`listener, conns, os
      ensures Valid()
      ensures sock == -1 ==> r == Done && listener == -1 && conns[..] == old(conns[..])
                             && os.open == old(os.open) - {old(listener)}
      ensures sock != -1 ==> (r.Done? <==> sock in old(conns[..])) && listener == old(listener)
      ensures r in {Done, InvalidSocket}
      ensures sock != -1 ==> os.open == if r.Done? then old(os.open) - {sock} else old(os.open)
    {
      ghost var was := conns[..];
      if sock == -1 {
        if listener >= 0 {
          NoListener(listener, was);
          os.Close(listener);
          listener := -1;
        }
        return Done;
      }
      for i := 0 to LIMIT
        invariant conns[..] == was && listener == old(listener) && os.open == old(os.open)
        invariant forall j :: 0 <= j < i ==> conns[j] != sock
      {
        if conns[i] == sock {
          assert was[i] == sock;
          NoConnection(listener, was, i);
          os.Close(sock);
          conns[i] := -1;
          assert conns[..] == was[i := -1];
          return Done;
        }
      }
      r := InvalidSocket;
    }

    /** net_close_all_cb: nothing stays open. */
    method CloseAll()
      requires Valid()
      modifies this`listener, conns, os
      ensures Valid() && os.open == {} && listener == -1 && conns[..] == [-1, -1]
    {
      for i := 0 to LIMIT
        invariant Valid() && listener == old(listener)
        invariant forall j :: 0 <= j < i ==> conns[j] == -1
      {
        if conns[i] >= 0 {
          ghost var was := conns[..];
          NoConnection(listener, was, i);
          os.Close(conns[i]);
          conns[i] := -1;
          assert conns[..] == was[i := -1];
        }
      }
      if listener >= 0 {
        NoListener(listener, conns[..]);
        os.Close(listener);
        listener := -1;
      }
      assert conns[..] == [-1, -1];
    }
  }

  lemma NewListener(fd: int, conns: seq<int>)
    requires Held(-1, conns) && fd >= 0 && fd !in Descriptors(-1, conns)
    ensures Held(fd, conns) && Descriptors(fd, conns) == Descriptors(-1, conns) + {fd}
  {
    assert forall i :: 0 <= i < |conns| && conns[i] >= 0 ==> conns[i] in Descriptors(-1, conns);
    assert forall f :: f in [fd] + conns <==> f == fd || f in conns;
    assert forall f :: f in [-1] + conns <==> f == -1 || f in conns;
  }

  lemma NoListener(listener: int, conns: seq<int>)
    requires Held(listener, conns) && listener >= 0
    ensures Held(-1, conns) && Descriptors(-1, conns) == Descriptors(listener, conns) - {listener}
    ensures listener in Descriptors(listener, conns)
  {
    assert forall f :: f in [listener] + conns <==> f == listener || f in conns;
    assert forall f :: f in [-1] + conns <==> f == -1 || f in conns;
  }

  lemma NewConnection(listener: int, conns: seq<int>, slot: nat, fd: int)
    requires Held(listener, conns) && slot < |conns| && conns[slot] == -1 && fd >= 0
    requires fd !in Descriptors(listener, conns)
    ensures Held(listener, conns[slot := fd])
    ensures Descriptors(listener, conns[slot := fd]) == Descriptors(listener, conns) + {fd}
  {
    var now := conns[slot := fd];
    Members(listener, conns);
    Members(listener, now);
    assert now[slot] == fd;
    assert forall f :: f in now ==> f == fd || f in conns;
    assert forall i :: 0 <= i < |conns| && i != slot ==> now[i] == conns[i];
  }

  lemma NoConnection(listener: int, conns: seq<int>, slot: nat)
    requires Held(listener, conns) && slot < |conns| && conns[slot] >= 0
    ensures Held(listener, conns[slot := -1]) && conns[slot] in Descriptors(listener, conns)
    ensures Descriptors(listener, conns[slot := -1]) == Descriptors(listener, conns) - {conns[slot]}
  {
    var now := conns[slot := -1];
    Members(listener, conns);
    Members(listener, now);
    assert forall i :: 0 <= i < |conns| && i != slot ==> now[i] == conns[i];
    assert forall f :: f in now ==> f == -1 || f in conns;
  }

  lemma Members(listener: int, conns: seq<int>)
    ensures forall f :: f in Descriptors(listener, conns) <==> f >= 0 && (f == listener || f in conns)
  {
    assert forall f :: f in [listener] + conns <==> f == listener || f in conns;
  }

  /** What is open is exactly the listener and the distinct entries, never more than three. */
  lemma AtMostThree(listener: int, conns: seq<int>)
    requires Held(listener, conns) && |conns| == LIMIT
    ensures forall fd :: fd in Descriptors(listener, conns) <==> fd >= 0 && (fd == listener || fd in conns)
    ensures |Descriptors(listener, conns)| ==
            (if listener >= 0 then 1 else 0) + (if conns[0] >= 0 then 1 else 0) + (if conns[1] >= 0 then 1 else 0)
  {
    Members(listener, conns);
    DescriptorsOfTwo(listener, conns);
    ThreeApart(One(listener), One(conns[0]), One(conns[1]));
    hide Descriptors, One;
  }

  lemma DescriptorsOfTwo(listener: int, conns: seq<int>)
    requires |conns| == 2
    ensures Descriptors(listener, conns) == One(listener) + One(conns[0]) + One(conns[1])
  {
    assert [listener] + conns == [listener, conns[0], conns[1]];
  }

  lemma ThreeApart(l: set<int>, a: set<int>, b: set<int>)
    requires l !! a && l !! b && a !! b
    ensures |l + a + b| == |l| + |a| + |b|
  {
    assert (l + a) !! b;
  }

  function One(fd: int): (s: set<int>)
    ensures |s| == if fd >= 0 then 1 else 0
  {
    if fd >= 0 then {fd} else {}
  }
}
