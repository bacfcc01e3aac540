/** The test client's inbox: a queue a reader thread appends to at any moment, `expect` with its stash,
    and `assert_silent`. */
module ClientInbox {
  import opened Prelude

  /** A decoded frame: the two fields the client looks at, absent or not, and everything else. */
  datatype Frame = Frame(correlationId: Option<string>, kind: Option<string>, other: string)

  /** The arguments of `expect`: None means any. */
  datatype Wanted = Wanted(correlationId: Option<string>, kind: Option<string>) {
    predicate Accepts(f: Frame) {
      && (correlationId.Some? ==> f.correlationId == correlationId)
      && (kind.Some? ==> f.kind == kind)
    }
  }

  /** The frames of `q` that `w` accepts, in order. */
  function Only(w: Wanted, q: seq<Frame>): seq<Frame> {
    if q == [] then []
    else Only(w, q[..|q| - 1]) + if w.Accepts(q[|q| - 1]) then [q[|q| - 1]] else []
  }

  lemma {:induction false} OnlyAppend(w: Wanted, a: seq<Frame>, b: seq<Frame>)
    ensures Only(w, a + b) == Only(w, a) + Only(w, b)
    decreases |b|
  {
    if b == [] {
      assert a + b == a;
    } else {
      OnlyAppend(w, a, b[..|b| - 1]);
      assert (a + b)[..|a + b| - 1] == a + b[..|b| - 1];
    }
  }

  lemma OnlyOne(w: Wanted, f: Frame)
    ensures Only(w, [f]) == if w.Accepts(f) then [f] else []
  {
    assert [f][..0] == [];
  }

  /** Nothing in `q` is wanted. */
  ghost predicate Unwanted(w: Wanted, q: seq<Frame>) {
    Only(w, q) == []
  }

  lemma UnwantedMore(w: Wanted, q: seq<Frame>, f: Frame)
    requires Unwanted(w, q) && !w.Accepts(f)
    ensures Unwanted(w, q + [f])
  {
    OnlyAppend(w, q, [f]);
    OnlyOne(w, f);
  }

  /** What one call of `expect` may do to a queue: `all` is the queue it met and everything that arrived
      meanwhile, `left` the queue it leaves. */
  ghost predicate Expected(w: Wanted, all: seq<Frame>, r: Option<Frame>, left: seq<Frame>) {
    match r
    case Some(f) => Only(w, all) == [f] + Only(w, left) && multiset(all) == multiset(left) + multiset{f}
    case None => Only(w, all) == Only(w, left) && multiset(all) == multiset(left)
  }

  /** Why a call of `expect` came back without a frame. With its deadline passed it had looked at `budget`
      frames from the front, none wanted; otherwise the queue was found empty after the frames of `met`, none
      wanted. */
  ghost predicate GaveUp(w: Wanted, all: seq<Frame>, met: seq<Frame>, late: bool, budget: nat) {
    met <= all && Unwanted(w, met) && |met| <= budget && (late <==> |met| == budget)
  }

  lemma UnwantedParts(w: Wanted, a: seq<Frame>, b: seq<Frame>)
    ensures Unwanted(w, a + b) <==> Unwanted(w, a) && Unwanted(w, b)
  {
    OnlyAppend(w, a, b);
  }

  /** Frames appended to a queue and to what it stands for keep the two in step. */
  lemma MoreArrived(w: Wanted, q: seq<Frame>, base: seq<Frame>, batch: seq<Frame>, back: multiset<Frame>)
    requires Only(w, q) == Only(w, base) && multiset(q) == multiset(base) + back
    ensures Only(w, q + batch) == Only(w, base + batch) && multiset(q + batch) == multiset(base + batch) + back
  {
    OnlyAppend(w, q, batch);
    OnlyAppend(w, base, batch);
  }

  lemma ArrivedInParts<T>(first: seq<T>, before: nat, seen: seq<T>, now: seq<T>)
    requires before <= |seen| && seen <= now
    ensures first + now[before..] == (first + seen[before..]) + now[|seen|..]
  {
  }

  /** A call that took `stash`, unwanted, then perhaps `found`, and put the stash back. */
  lemma Settled(w: Wanted, stash: seq<Frame>, r: Option<Frame>, rest: seq<Frame>, left: seq<Frame>)
    requires Unwanted(w, stash) && (r.Some? ==> w.Accepts(r.value))
    requires Only(w, left) == Only(w, rest) && multiset(left) == multiset(rest) + multiset(stash)
    ensures Expected(w, stash + Found(r) + rest, r, left)
  {
    OnlyAppend(w, stash + Found(r), rest);
    OnlyAppend(w, stash, Found(r));
    PartsMultiset(stash + Found(r), rest);
    PartsMultiset(stash, Found(r));
    hide Only;
    if r.Some? {
      OnlyOne(w, r.value);
      assert [] + [r.value] == [r.value];
    } else {
      assert stash + [] == stash && [] + Only(w, rest) == Only(w, rest);
    }
  }

  lemma PartsMultiset<T>(a: seq<T>, b: seq<T>)
    ensures multiset(a + b) == multiset(a) + multiset(b)
  {
  }

  function Found(r: Option<Frame>): seq<Frame> {
    if r.Some? then [r.value] else []
  }

  datatype Sight = Empty | Fine | Forbidden

  /** What looking at the front of `q` shows and leaves. */
  ghost predicate SightOf(q: seq<Frame>, forbidden: string, seen: Sight, left: seq<Frame>) {
    match seen
    case Empty => q == [] && left == []
    case Fine => q != [] && q[0].kind != Some(forbidden) && left == q[1..] + [q[0]]
    case Forbidden => q != [] && q[0].kind == Some(forbidden) && left == q[1..]
  }

  /** What `assert_silent` does to a queue: on success the same frames remain; on failure exactly one
      frame of the forbidden type is gone. */
  ghost predicate Watched(ok: bool, forbidden: string, all: seq<Frame>, left: seq<Frame>) {
    if ok then multiset(all) == multiset(left)
    else exists f: Frame :: f.kind == Some(forbidden) && f in all && multiset(all) == multiset(left) + multiset{f}
  }

  ghost predicate NoneOf(forbidden: string, q: seq<Frame>) {
    forall f | f in q :: f.kind != Some(forbidden)
  }

  class Client {
    var inbox: seq<Frame>
    ghost var arrived: seq<Frame>

    /** The reader thread: any number of frames arrives. */
    method Arrive()
      modifies this
      ensures old(arrived) <= arrived && inbox == old(inbox) + arrived[|old(arrived)|..]
    {
      var batch: seq<Frame> := *;
      inbox, arrived := inbox + batch, arrived + batch;
    }

    /** The `finally` clause: stashed frames go back, the reader still appending in between. */
    method PutBack(w: Wanted, stash: seq<Frame>)
      requires Unwanted(w, stash)
      modifies this
      ensures old(arrived) <= arrived
      ensures Only(w, inbox) == Only(w, old(inbox) + arrived[|old(arrived)|..])
      ensures multiset(inbox) == multiset(old(inbox) + arrived[|old(arrived)|..]) + multiset(stash)
      ensures arrived == old(arrived) ==> inbox == old(inbox) + stash
    {
      hide Only;
      ghost var first, before := inbox, |arrived|;
      assert first + arrived[before..] == first && stash[..0] == [];
      for k := 0 to |stash|
        invariant old(arrived) <= arrived
        invariant Only(w, inbox) == Only(w, first + arrived[before..])
        invariant multiset(inbox) == multiset(first + arrived[before..]) + multiset(stash[..k])
        invariant arrived == old(arrived) ==> inbox == first + stash[..k]
      {
        ghost var q, seen := inbox, arrived;
        Arrive();
        MoreArrived(w, q, first + seen[before..], arrived[|seen|..], multiset(stash[..k]));
        ArrivedInParts(first, before, seen, arrived);
        OneBack(w, stash, k, inbox);
        inbox := inbox + [stash[k]];
      }
      assert stash[..|stash|] == stash;
    }

    /** `inbox.get` with a timeout: more may arrive first; None when the queue stays empty. */
    method Get() returns (msg: Option<Frame>)
      modifies this
      ensures old(arrived) <= arrived
      ensures old(inbox) + arrived[|old(arrived)|..] == Found(msg) + inbox
      ensures msg.None? ==> arrived == old(arrived) && inbox == old(inbox) == []
    {
      Arrive();
      if inbox == [] {
        return None;
      }
      msg := Some(inbox[0]);
      HeadTail(inbox);
      inbox := inbox[1..];
    }

    /** The `try` part of `expect`: take frames from the front until one is wanted, the deadline passes or
        the queue stays empty, stashing the others. The deadline passes after `budget` turns. */
    method Collect(w: Wanted, budget: nat) returns (r: Option<Frame>, stash: seq<Frame>)
      modifies this
      ensures old(arrived) <= arrived
      ensures old(inbox) + arrived[|old(arrived)|..] == stash + Found(r) + inbox
      ensures Unwanted(w, stash) && (r.Some? ==> w.Accepts(r.value)) && |stash| + |Found(r)| <= budget
      ensures r.None? && |stash| < budget ==> inbox == []
    {
      hide Unwanted;
      ghost var first, before := inbox, |arrived|;
      stash, r := [], None;
      var left := budget;
      assert first + arrived[before..] == first;
      NothingUnwanted(w);
      while left > 0
        invariant 0 <= left && left + |stash| == budget && r == None
        invariant old(arrived) <= arrived && first + arrived[before..] == stash + inbox
        invariant Unwanted(w, stash)
      {
        ghost var q, seen := inbox, arrived;
        var msg := Get();
        ArrivedInParts(first, before, seen, arrived);
        Regroup(stash, q, arrived[|seen|..], Found(msg), inbox);
        if msg.None? {
          break;
        }
        if !w.Accepts(msg.value) {
          UnwantedMore(w, stash, msg.value);
          stash := stash + [msg.value];
          left := left - 1;
          continue;
        }
        return msg, stash;
      }
      assert stash + Found(r) == stash;
    }

    /** `expect`: the unwanted frames go back behind whatever is queued by then. Without a frame, `late` says
        whether the deadline had passed, and `met` what it had looked at. */
    method Expect(w: Wanted, budget: nat) returns (r: Option<Frame>, late: bool, ghost met: seq<Frame>)
      modifies this
      ensures old(arrived) <= arrived
      ensures var all := old(inbox) + arrived[|old(arrived)|..];
              && Expected(w, all, r, inbox)
              && (r.None? ==> GaveUp(w, all, met, late, budget))
              && (r.None? && !late ==> |old(inbox)| <= |met|)
      ensures r.Some? ==>
                && (w.correlationId.Some? ==> r.value.correlationId == w.correlationId)
                && (w.kind.Some? ==> r.value.kind == w.kind)
      ensures r.None? && !late ==> forall f | f in old(inbox) ::
                || (w.correlationId.Some? && f.correlationId != w.correlationId)
                || (w.kind.Some? && f.kind != w.kind)
      ensures arrived == old(arrived) ==> (r, inbox) == Scan(w, old(inbox), budget, [])
    {
      hide Only, Scan, Unwanted, Expected;
      ghost var first, before := inbox, |arrived|;
      var stash;
      r, stash := Collect(w, budget);
      late, met := |stash| == budget, stash;
      ghost var q, seen := inbox, arrived;
      PutBack(w, stash);
      ghost var after := arrived[|seen|..];
      ArrivedInParts(first, before, seen, arrived);
      ConcatAssociative(stash + Found(r), q, after);
      Settled(w, stash, r, q + after, inbox);
      Looked(stash, r, q, first, seen[before..], after);
      if r.None? && !late {
        NoneWasAsked(w, first, stash, seen[before..] + after);
      }
      if arrived == old(arrived) {
        assert seen == arrived && first + seen[before..] == first;
        ScanTaken(w, stash, r, q, budget, []);
        assert [] + stash == stash;
      }
    }

    /** The loop of the ordering scenario: one call of `expect` for each deadline, with the same arguments. It
        stops short only at a call that found every queued wanted frame taken already, or that looked at as
        many unwanted frames as its deadline allows. */
    method ExpectSeveral(w: Wanted, budgets: seq<nat>) returns (frames: seq<Frame>, late: bool)
      modifies this
      ensures old(arrived) <= arrived
      ensures var all := old(inbox) + arrived[|old(arrived)|..];
              && Only(w, all) == frames + Only(w, inbox)
              && multiset(all) == multiset(frames) + multiset(inbox)
      ensures |frames| <= |budgets|
      ensures |frames| < |budgets| && late ==> budgets[|frames|] + |Only(w, inbox)| <= |inbox|
      ensures |frames| < |budgets| && !late ==> |Only(w, old(inbox))| <= |frames|
    {
      hide Only, Scan, Expected, GaveUp;
      ghost var first, before := inbox, |arrived|;
      frames, late := [], false;
      assert first + arrived[before..] == first && [] + Only(w, inbox) == Only(w, inbox);
      while |frames| < |budgets|
        invariant |frames| <= |budgets| && old(arrived) <= arrived
        invariant Only(w, first + arrived[before..]) == frames + Only(w, inbox)
        invariant multiset(first + arrived[before..]) == multiset(frames) + multiset(inbox)
        decreases |budgets| - |frames|
      {
        ghost var q, seen, got := inbox, arrived, frames;
        ghost var met;
        var r;
        r, late, met := Expect(w, budgets[|frames|]);
        ArrivedInParts(first, before, seen, arrived);
        OneMoreExpected(w, first + seen[before..], got, q, arrived[|seen|..], r, inbox);
        if r.None? {
          assert got + [] == got;
          CameBackShort(w, first, seen[before..], got, q, arrived[|seen|..], met, late, budgets[|frames|], inbox);
          return frames, late;
        }
        frames := frames + [r.value];
      }
    }

    /** One turn of `assert_silent`: take the front frame and put it back at the end, unless its type is
        forbidden. Silent while the queue stays empty. */
    method Look(forbidden: string) returns (seen: Sight)
      modifies this
      ensures old(arrived) <= arrived
      ensures SightOf(old(inbox) + arrived[|old(arrived)|..], forbidden, seen, inbox)
    {
      var msg := Get();
      if msg.None? {
        return Empty;
      }
      TakenFirst(old(inbox) + arrived[|old(arrived)|..], msg.value, inbox);
      if msg.value.kind == Some(forbidden) {
        return Forbidden;
      }
      inbox := inbox + [msg.value];
      return Fine;
    }

    /** `assert_silent`: look at frames from the front, putting each back at the end, until one has the
        forbidden type, the deadline passes after `budget` turns or the queue stays empty. */
    method AssertSilent(forbidden: string, budget: nat) returns (ok: bool, looked: nat)
      modifies this
      ensures old(arrived) <= arrived
      ensures Watched(ok, forbidden, old(inbox) + arrived[|old(arrived)|..], inbox)
      ensures ok ==> looked == budget || (looked == 0 && old(inbox) == [])
      ensures ok && looked >= |old(inbox)| ==> NoneOf(forbidden, old(inbox))
      ensures ok && arrived == old(arrived) ==> Rotation(old(inbox), inbox)
    {
      hide Silent, Rotation, Watched, NoneOf;
      ghost var first := inbox;
      looked := 0;
      var left := budget;
      assert first + arrived[|old(arrived)|..] == first;
      SilentStart(first, forbidden);
      while left > 0
        invariant 0 <= left && left + looked == budget && old(arrived) <= arrived
        invariant looked == 0 ==> old(inbox) <= inbox
        invariant looked > 0 ==> inbox != []
        invariant Silent(first, first + arrived[|old(arrived)|..], inbox, looked, forbidden, arrived == old(arrived))
      {
        ghost var q, was := inbox, arrived;
        var seen := Look(forbidden);
        SilentLook(first, old(arrived), was, arrived, q, looked, forbidden, seen, inbox);
        if seen.Forbidden? {
          return false, looked;
        }
        if seen.Empty? {
          assert |q| == 0;
          break;
        }
        looked := looked + 1;
        left := left - 1;
      }
      SilentEnd(first, first + arrived[|old(arrived)|..], inbox, looked, forbidden, arrived == old(arrived));
      ok := true;
    }
  }

  /** One turn keeps what `assert_silent` keeps, or reveals the forbidden frame. */
  lemma SilentLook(first: seq<Frame>, start: seq<Frame>, was: seq<Frame>, now: seq<Frame>, q: seq<Frame>, looked: nat,
                   forbidden: string, seen: Sight, left: seq<Frame>)
    requires start <= was <= now && Silent(first, first + was[|start|..], q, looked, forbidden, was == start)
    requires SightOf(q + now[|was|..], forbidden, seen, left)
    ensures start <= now
    ensures var all := first + now[|start|..];
            match seen
            case Empty => Silent(first, all, left, looked, forbidden, now == start)
            case Fine => Silent(first, all, left, looked + 1, forbidden, now == start)
            case Forbidden => Watched(false, forbidden, all, left)
  {
    hide Silent, Watched;
    var batch := now[|was|..];
    StillQuiet(start, was, now, was == start);
    ArrivedInParts(first, |start|, was, now);
    SilentArrival(first, first + was[|start|..], q, looked, forbidden, was == start, batch);
    match seen
    case Empty =>
    case Fine =>
      SilentTurn(first, first + now[|start|..], q + batch, looked, forbidden, was == start && batch == [], left);
    case Forbidden =>
      SilentBroken(first, first + now[|start|..], q + batch, looked, forbidden, was == start && batch == [], left);
  }

  lemma StillQuiet<T>(start: seq<T>, was: seq<T>, now: seq<T>, quiet: bool)
    requires start <= was <= now && (was == start ==> quiet)
    ensures now == start ==> quiet && now[|was|..] == []
  {
  }

  lemma TakenFirst(whole: seq<Frame>, f: Frame, rest: seq<Frame>)
    requires whole == Found(Some(f)) + rest
    ensures whole != [] && whole[0] == f && whole[1..] == rest
  {
  }

  lemma Regroup<T>(stash: seq<T>, q: seq<T>, batch: seq<T>, found: seq<T>, rest: seq<T>)
    requires q + batch == found + rest
    ensures (stash + q) + batch == (stash + found) + rest
  {
    ConcatAssociative(stash, q, batch);
    ConcatAssociative(stash, found, rest);
  }

  lemma NothingUnwanted(w: Wanted)
    ensures Unwanted(w, [])
  {
  }

  lemma OneBack(w: Wanted, stash: seq<Frame>, k: nat, q: seq<Frame>)
    requires Unwanted(w, stash) && k < |stash|
    ensures Only(w, q + [stash[k]]) == Only(w, q)
    ensures stash[..k + 1] == stash[..k] + [stash[k]]
  {
    SplitAt(stash, k);
    SplitAt(stash[k..], 1);
    UnwantedParts(w, stash[..k], stash[k..]);
    UnwantedParts(w, [stash[k]], stash[k..][1..]);
    assert stash[k..][..1] == [stash[k]];
    OnlyAppend(w, q, [stash[k]]);
    assert Only(w, q) + [] == Only(w, q);
  }

  lemma OneMoreExpected(w: Wanted, all: seq<Frame>, frames: seq<Frame>, q: seq<Frame>, batch: seq<Frame>,
                        r: Option<Frame>, left: seq<Frame>)
    requires Only(w, all) == frames + Only(w, q) && multiset(all) == multiset(frames) + multiset(q)
    requires Expected(w, q + batch, r, left)
    ensures Only(w, all + batch) == frames + Found(r) + Only(w, left)
    ensures multiset(all + batch) == multiset(frames + Found(r)) + multiset(left)
  {
    hide Only;
    OnlyAppend(w, all, batch);
    OnlyAppend(w, q, batch);
    assert Only(w, q + batch) == Found(r) + Only(w, left) by {
      assert [] + Only(w, left) == Only(w, left);
    }
    Regroup(frames, Only(w, q), Only(w, batch), Found(r), Only(w, left));
    FramesKept(all, frames, q, batch, Found(r), left);
  }

  lemma {:induction false} NoneAmong(w: Wanted, q: seq<Frame>)
    ensures Unwanted(w, q) <==> forall f | f in q :: !w.Accepts(f)
  {
    hide Wanted.Accepts;
    if q == [] {
    } else {
      NoneAmong(w, q[..|q| - 1]);
      assert q == q[..|q| - 1] + [q[|q| - 1]];
    }
  }

  /** When everything queued at first was looked at, none of it carries what was asked for. */
  lemma NoneWasAsked(w: Wanted, first: seq<Frame>, stash: seq<Frame>, more: seq<Frame>)
    requires Unwanted(w, stash) && stash <= first + more && |first| <= |stash|
    ensures forall f | f in first ::
              || (w.correlationId.Some? && f.correlationId != w.correlationId)
              || (w.kind.Some? && f.kind != w.kind)
  {
    NoneAmong(w, stash);
    forall f | f in first
      ensures !w.Accepts(f)
    {
      var i :| 0 <= i < |first| && first[i] == f;
      assert stash[i] == (first + more)[i] == f;
    }
  }

  /** What a call looked at when it came back, in terms of the frames it met and those that came too late. */
  lemma Looked(stash: seq<Frame>, r: Option<Frame>, rest: seq<Frame>, first: seq<Frame>, seen: seq<Frame>,
               after: seq<Frame>)
    requires first + seen == stash + Found(r) + rest
    ensures stash <= first + (seen + after)
    ensures r.None? && rest == [] ==> |first| <= |stash|
  {
    ConcatAssociative(first, seen, after);
    ConcatAssociative(stash + Found(r), rest, after);
    ConcatAssociative(stash, Found(r), rest + after);
  }

  /** A call without a frame, after `frames` had been returned: with its deadline passed, as many unwanted
      frames are queued as it had time for; otherwise every wanted frame queued at the start was returned. */
  lemma CameBackShort(w: Wanted, first: seq<Frame>, before: seq<Frame>, frames: seq<Frame>, q: seq<Frame>,
                      batch: seq<Frame>, met: seq<Frame>, late: bool, budget: nat, left: seq<Frame>)
    requires Only(w, first + before) == frames + Only(w, q)
    requires Expected(w, q + batch, None, left) && GaveUp(w, q + batch, met, late, budget)
    requires !late ==> |q| <= |met|
    ensures late ==> budget + |Only(w, left)| <= |left|
    ensures !late ==> |Only(w, first)| <= |frames|
  {
    hide Only;
    var all := q + batch;
    SplitAt(all, |met|);
    assert all[..|met|] == met;
    OnlyAppend(w, met, all[|met|..]);
    OnlyFewer(w, all[|met|..]);
    assert |left| == |multiset(left)| == |multiset(all)| == |all|;
    if !late {
      SplitAt(met, |q|);
      assert met[..|q|] == q;
      UnwantedParts(w, q, met[|q|..]);
      OnlyAppend(w, first, before);
    }
  }

  lemma {:induction false} OnlyFewer(w: Wanted, q: seq<Frame>)
    ensures |Only(w, q)| <= |q|
  {
    if q == [] {
    } else {
      OnlyFewer(w, q[..|q| - 1]);
    }
  }

  lemma FramesKept<T>(all: seq<T>, frames: seq<T>, q: seq<T>, batch: seq<T>, found: seq<T>, left: seq<T>)
    requires multiset(all) == multiset(frames) + multiset(q) && multiset(q + batch) == multiset(left) + multiset(found)
    ensures multiset(all + batch) == multiset(frames + found) + multiset(left)
  {
    PartsMultiset(all, batch);
    PartsMultiset(q, batch);
    PartsMultiset(frames, found);
    var f, b, l := multiset(frames), multiset(batch), multiset(left);
    assert f + multiset(q) + b == f + (multiset(q) + b) == f + (l + multiset(found)) == f + multiset(found) + l;
  }

  // ---- a quiet queue ----

  /** `expect` on a queue to which nothing is added, cut off after `n` turns. */
  function Scan(w: Wanted, q: seq<Frame>, n: nat, stash: seq<Frame>): (Option<Frame>, seq<Frame>)
    decreases |q|
  {
    if n == 0 then (None, q + stash)
    else if q == [] then (None, stash)
    else if w.Accepts(q[0]) then (Some(q[0]), q[1..] + stash)
    else Scan(w, q[1..], n - 1, stash + [q[0]])
  }

  lemma {:induction false} ScanTaken(w: Wanted, taken: seq<Frame>, r: Option<Frame>, q: seq<Frame>, n: nat,
                                     stash: seq<Frame>)
    requires Unwanted(w, taken) && (r.Some? ==> w.Accepts(r.value))
    requires n >= |taken| + |Found(r)| && (r.None? && n > |taken| ==> q == [])
    ensures Scan(w, taken + Found(r) + q, n, stash) == (r, q + (stash + taken))
    decreases |taken|
  {
    if taken == [] {
      assert [] + Found(r) + q == Found(r) + q && stash + [] == stash;
      assert r.Some? ==> (Found(r) + q)[1..] == q;
      assert r.None? ==> Found(r) + q == q;
      assert q == [] ==> q + stash == stash;
    } else {
      HeadTail(taken);
      UnwantedParts(w, [taken[0]], taken[1..]);
      OnlyOne(w, taken[0]);
      ScanTaken(w, taken[1..], r, q, n - 1, stash + [taken[0]]);
      assert (taken + Found(r) + q)[1..] == taken[1..] + Found(r) + q;
      ConcatAssociative(stash, [taken[0]], taken[1..]);
    }
  }

  /** A call on a quiet queue comes back without a frame exactly when none of those it has time for is
      wanted. */
  lemma {:induction false} ScanNoneIff(w: Wanted, q: seq<Frame>, n: nat, stash: seq<Frame>)
    ensures Scan(w, q, n, stash).0.None? <==> forall i | 0 <= i < Min(n, |q|) :: !w.Accepts(q[i])
    decreases |q|
  {
    if n == 0 || q == [] {
    } else {
      ScanNoneIff(w, q[1..], n - 1, stash + [q[0]]);
      assert forall i | 1 <= i < |q| :: q[i] == q[1..][i - 1];
    }
  }

  /** A timeout on a quiet queue turns it by the number of turns taken; a hit leaves the frames before the
      hit behind those after it. */
  lemma {:induction false} ScanTurns(w: Wanted, q: seq<Frame>, n: nat, stash: seq<Frame>)
    ensures var s := Scan(w, q, n, stash); Turned(q, n, stash, s.0, s.1)
    decreases |q|
  {
    if n == 0 || q == [] {
      assert q[0..] == q && stash + q[..0] == stash && stash + q[..Min(n, |q|)] == stash;
      assert [] + stash == stash;
    } else if w.Accepts(q[0]) {
      assert stash + q[..0] == stash;
      assert q[0] == q[0] && Scan(w, q, n, stash) == (Some(q[0]), q[0 + 1..] + (stash + q[..0]));
    } else {
      ScanTurns(w, q[1..], n - 1, stash + [q[0]]);
      TurnsShift(w, q, n, stash);
    }
  }

  /** How a scan left the queue. */
  ghost predicate Turned(q: seq<Frame>, n: nat, stash: seq<Frame>, r: Option<Frame>, left: seq<Frame>) {
    if r.None? then left == q[Min(n, |q|)..] + (stash + q[..Min(n, |q|)])
    else exists k: nat :: k < |q| && k < n && r.value == q[k] && left == q[k + 1..] + (stash + q[..k])
  }

  lemma TurnsShift(w: Wanted, q: seq<Frame>, n: nat, stash: seq<Frame>)
    requires n > 0 && q != [] && !w.Accepts(q[0])
    requires var s := Scan(w, q[1..], n - 1, stash + [q[0]]); Turned(q[1..], n - 1, stash + [q[0]], s.0, s.1)
    ensures var s := Scan(w, q, n, stash); Turned(q, n, stash, s.0, s.1)
  {
    var (r, left) := Scan(w, q, n, stash);
    assert Turned(q[1..], n - 1, stash + [q[0]], r, left);
    if r.None? {
      TurnShift(q, stash, Min(n, |q|) - 1);
    } else {
      var k: nat :| k < |q[1..]| && k < n - 1 && r.value == q[1..][k]
                    && left == q[1..][k + 1..] + ((stash + [q[0]]) + q[1..][..k]);
      TurnShift(q, stash, k);
      assert q[1..][k + 1..] == q[k + 1 + 1..] && r.value == q[k + 1];
    }
  }

  lemma TurnShift(q: seq<Frame>, stash: seq<Frame>, k: nat)
    requires k < |q|
    ensures q[1..][k..] == q[k + 1..]
    ensures (stash + [q[0]]) + q[1..][..k] == stash + q[..k + 1]
  {
  }

  /** The frame `k` places behind place `i`, going round. */
  function Ahead(q: seq<Frame>, i: nat, k: nat): Frame
    requires i < |q|
  {
    q[(i + k) % |q|]
  }

  /** Exactly when a timeout on a quiet queue leaves it unchanged: when turning it by the frames it looked at
      does. So it does if it looked at no frame or at every frame, and only then if no two are equal. */
  lemma QuietTimeoutUnchangedIff(w: Wanted, q: seq<Frame>, n: nat)
    requires Scan(w, q, n, []).0.None?
    ensures Scan(w, q, n, []).1 == q <==> forall i: nat | i < |q| :: Ahead(q, i, Min(n, |q|)) == q[i]
    ensures n == 0 || n >= |q| ==> Scan(w, q, n, []).1 == q
    ensures 0 < n < |q| && (forall i, j | 0 <= i < j < |q| :: q[i] != q[j]) ==> Scan(w, q, n, []).1 != q
  {
    hide Scan;
    ScanTurns(w, q, n, []);
    var k := Min(n, |q|);
    var turned := q[k..] + q[..k];
    assert [] + q[..k] == q[..k] && Scan(w, q, n, []).1 == turned;
    TurnedUnchangedIff(q, k);
    if n == 0 || n >= |q| {
      assert turned == q;
    } else {
      assert turned[0] == q[n];
    }
  }

  lemma TurnedUnchangedIff(q: seq<Frame>, k: nat)
    requires k <= |q|
    ensures q[k..] + q[..k] == q <==> forall i: nat | i < |q| :: Ahead(q, i, k) == q[i]
  {
    var turned := q[k..] + q[..k];
    forall i: nat | i < |q|
      ensures Ahead(q, i, k) == turned[i]
    {
      WrapAround(i, k, |q|);
    }
    hide Ahead;
    if forall i: nat | i < |q| :: Ahead(q, i, k) == q[i] {
      assert forall i: nat | i < |q| :: turned[i] == q[i];
    }
  }

  lemma WrapAround(i: nat, k: nat, n: nat)
    requires i < n && k <= n
    ensures (i + k) % n == if i + k < n then i + k else i + k - n
  {
    if i + k >= n {
      assert i + k == n + (i + k - n);
    }
  }

  /** A call that times out after one of two frames leaves them the other way round. */
  lemma TimeoutTurns()
    ensures var a, b := Frame(None, Some("ack"), ""), Frame(None, Some("pong"), "");
            && Scan(Wanted(None, Some("deliver")), [a, b], 1, []) == (None, [b, a]) && [b, a] != [a, b]
  {
    var a, b := Frame(None, Some("ack"), ""), Frame(None, Some("pong"), "");
    assert [a, b][1..] == [b] && [] + [a] == [a] && [b] + [a] == [b, a];
    assert "ack" != "deliver" && "ack" != "pong";
  }

  // ---- turning the queue ----

  ghost predicate Rotation(q: seq<Frame>, turned: seq<Frame>) {
    exists k: nat :: k <= |q| && turned == q[k..] + q[..k]
  }

  lemma NoTurn(q: seq<Frame>)
    ensures Rotation(q, q)
  {
    assert q[0..] + q[..0] == q;
  }

  lemma TurnOnce(q: seq<Frame>, turned: seq<Frame>)
    requires Rotation(q, turned) && turned != []
    ensures Rotation(q, turned[1..] + [turned[0]])
  {
    var k: nat :| k <= |q| && turned == q[k..] + q[..k];
    if k < |q| {
      assert turned[1..] + [turned[0]] == q[k + 1..] + q[..k + 1];
    } else {
      assert turned == q;
      assert turned[1..] + [turned[0]] == q[1..] + q[..1];
    }
  }

  /** After `looked` turns, the initial frames not yet looked at are still in front, and those looked at
      did not have the forbidden type. */
  ghost predicate Behind(first: seq<Frame>, q: seq<Frame>, looked: nat, forbidden: string) {
    && (looked <= |first| ==> first[looked..] <= q)
    && forall i | 0 <= i < Min(looked, |first|) :: first[i].kind != Some(forbidden)
  }

  lemma BehindMore(first: seq<Frame>, q: seq<Frame>, looked: nat, forbidden: string, batch: seq<Frame>)
    requires Behind(first, q, looked, forbidden)
    ensures Behind(first, q + batch, looked, forbidden)
  {
  }

  lemma BehindTurn(first: seq<Frame>, q: seq<Frame>, looked: nat, forbidden: string)
    requires Behind(first, q, looked, forbidden) && q != [] && q[0].kind != Some(forbidden)
    ensures Behind(first, q[1..] + [q[0]], looked + 1, forbidden)
  {
    if looked < |first| {
      assert first[looked] == first[looked..][0] == q[0];
      assert first[looked + 1..] == first[looked..][1..];
    }
  }

  /** What `assert_silent` has kept so far: the same frames, the unseen initial ones still in front, and,
      while nothing arrived, the queue only turned. */
  ghost predicate Silent(first: seq<Frame>, all: seq<Frame>, q: seq<Frame>, looked: nat, forbidden: string, quiet: bool)
  {
    multiset(all) == multiset(q) && Behind(first, q, looked, forbidden) && (quiet ==> Rotation(first, q))
  }

  lemma SilentStart(first: seq<Frame>, forbidden: string)
    ensures Silent(first, first, first, 0, forbidden, true)
  {
    NoTurn(first);
  }

  lemma SilentArrival(first: seq<Frame>, all: seq<Frame>, q: seq<Frame>, looked: nat, forbidden: string, quiet: bool,
                      batch: seq<Frame>)
    requires Silent(first, all, q, looked, forbidden, quiet)
    ensures Silent(first, all + batch, q + batch, looked, forbidden, quiet && batch == [])
  {
    BehindMore(first, q, looked, forbidden, batch);
    PartsMultiset(all, batch);
    PartsMultiset(q, batch);
    assert batch == [] ==> q + batch == q;
  }

  lemma SilentTurn(first: seq<Frame>, all: seq<Frame>, q: seq<Frame>, looked: nat, forbidden: string, quiet: bool,
                   left: seq<Frame>)
    requires Silent(first, all, q, looked, forbidden, quiet) && q != [] && q[0].kind != Some(forbidden)
    requires left == q[1..] + [q[0]]
    ensures Silent(first, all, left, looked + 1, forbidden, quiet)
  {
    BehindTurn(first, q, looked, forbidden);
    if quiet {
      TurnOnce(first, q);
    }
    HeadTail(q);
    PartsMultiset(q[1..], [q[0]]);
    PartsMultiset([q[0]], q[1..]);
  }

  lemma SilentBroken(first: seq<Frame>, all: seq<Frame>, q: seq<Frame>, looked: nat, forbidden: string, quiet: bool,
                     left: seq<Frame>)
    requires Silent(first, all, q, looked, forbidden, quiet) && q != [] && q[0].kind == Some(forbidden)
    requires left == q[1..]
    ensures Watched(false, forbidden, all, left)
  {
    HeadTail(q);
    PartsMultiset([q[0]], q[1..]);
    assert q[0] in multiset(q);
    assert q[0] in multiset(all);
  }

  lemma SilentEnd(first: seq<Frame>, all: seq<Frame>, q: seq<Frame>, looked: nat, forbidden: string, quiet: bool)
    requires Silent(first, all, q, looked, forbidden, quiet)
    ensures Watched(true, forbidden, all, q) && (quiet ==> Rotation(first, q))
    ensures looked >= |first| ==> NoneOf(forbidden, first)
  {
  }
}
