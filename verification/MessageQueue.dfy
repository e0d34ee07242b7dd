/** A message queue as a list of pages of bytes, each with its own counters and positions. */
module MessageQueues {
  import opened Basics
  import opened Messages

  datatype Page = Page(capacity: nat, bytes: nat, items: nat, pop: nat, push: nat, data: Bytes)

  /** The page holds exactly the given messages, back to back, between its two positions. */
  ghost predicate Holds(p: Page, ms: seq<Bytes>) {
    && |p.data| == p.capacity && p.pop <= p.push <= p.capacity
    && p.data[p.pop..p.push] == Flatten(ms)
    && p.bytes == p.push - p.pop && p.items == |ms|
    && (forall i :: 0 <= i < |ms| ==> WellFormed(ms[i]))
  }

  ghost predicate Stored(pages: seq<Page>, held: seq<seq<Bytes>>) {
    |held| == |pages| && forall i :: 0 <= i < |pages| ==> Holds(pages[i], held[i])
  }

  /** The first `n` pages hold at least one message each. */
  ghost predicate NoneEmpty(held: seq<seq<Bytes>>, n: nat) {
    n <= |held| && forall i :: 0 <= i < n ==> held[i] != []
  }

  predicate HasRoom(pages: seq<Page>, size: nat) {
    pages != [] && pages[|pages| - 1].push + size <= pages[|pages| - 1].capacity
  }

  class MessageQueue {
    var maxItems: nat
    var maxBytes: nat
    var bytes: nat
    var items: nat
    var averageMessageSize: nat
    var pages: seq<Page>
    ghost var held: seq<seq<Bytes>>

    ghost function Contents(): seq<Bytes>
      reads this
    {
      Flatten(held)
    }

    ghost function Limit(): Limits
      reads this
    {
      Limits(maxItems, maxBytes)
    }

    ghost predicate Valid()
      reads this
    {
      && Stored(pages, held) && NoneEmpty(held, |held|)
      && items == |Contents()| && bytes == |Flatten(Contents())|
      && (maxItems != 0 ==> items <= maxItems)
      && (maxBytes != 0 ==> bytes < maxBytes)
    }

    constructor ()
      ensures Valid() && Contents() == [] && maxItems == 0 && maxBytes == 0
    {
      maxItems, maxBytes, bytes, items, averageMessageSize, pages, held := 0, 0, 0, 0, 0, [], [];
    }

    method Peek(room: nat) returns (error: nat, msg: Bytes, size: nat)
      requires Valid()
      ensures Contents() == [] ==> error == ENOMSG && size == room
      ensures Contents() != [] && |Contents()[0]| <= room ==> error == 0 && msg == Contents()[0] && size == |msg|
      ensures Contents() != [] && |Contents()[0]| > room ==> error == EMSGSIZE && size == |Contents()[0]|
    {
      if items == 0 { return ENOMSG, [], room; }
      HeadInFirstPage(pages, held);
      var page := pages[0];
      size := ReadSize(page.data, page.pop);
      if size <= room {
        return 0, page.data[page.pop..page.pop + size], size;
      }
      return EMSGSIZE, [], size;
    }

    method AllocPage(minSize: nat)
      modifies this`pages, this`held
      ensures pages == old(pages) + [EmptyPage(PageCapacity(averageMessageSize, minSize))]
      ensures held == old(held) + [[]]
    {
      var size := averageMessageSize * 16;
      if size < minSize { size := minSize; }
      pages := pages + [EmptyPage(size)];
      held := held + [[]];
    }

    /** Makes sure that the last page has room for the message. */
    method ReserveRoom(size: nat)
      requires Stored(pages, held) && NoneEmpty(held, |held|)
      modifies this`pages, this`held
      ensures Stored(pages, held) && pages != [] && NoneEmpty(held, |held| - 1)
      ensures HasRoom(pages, size)
      ensures Contents() == old(Contents())
      ensures old(HasRoom(pages, size)) ==> pages == old(pages)
    {
      if pages == [] || pages[|pages| - 1].capacity - pages[|pages| - 1].push < size {
        AllocPage(size);
        FlattenSnoc(old(held), []);
        assert Holds(EmptyPage(PageCapacity(averageMessageSize, size)), []);
      }
    }

    method Push(message: Bytes) returns (error: nat)
      requires Valid() && WellFormed(message)
      modifies this
      ensures Valid() && Limit() == old(Limit())
      ensures error == if old(Accepts(Limit(), Contents(), message)) then 0 else ENOMEM
      ensures Contents() == After(Limit(), old(Contents()), Op.Push(message))
      ensures averageMessageSize ==
        if error != 0 then old(averageMessageSize)
        else if old(averageMessageSize) == 0 then |message|
        else (old(averageMessageSize) + |message|) / 2
    {
      var size := |message|;
      if (maxBytes != 0 && bytes + size >= maxBytes) || (maxItems != 0 && items >= maxItems) { return ENOMEM; }
      averageMessageSize := averageMessageSize + size;
      if averageMessageSize != size { averageMessageSize := averageMessageSize / 2; }
      ReserveRoom(size);
      AppendLast(message);
      return 0;
    }

    /** Writes the message at the last page's push position. */
    method AppendLast(message: Bytes)
      requires Stored(pages, held) && WellFormed(message) && HasRoom(pages, |message|) && NoneEmpty(held, |held| - 1)
      modifies this`pages, this`held, this`bytes, this`items
      ensures Stored(pages, held) && NoneEmpty(held, |held|)
      ensures bytes == old(bytes) + |message| && items == old(items) + 1
      ensures Contents() == old(Contents()) + [message]
      ensures |Flatten(Contents())| == old(|Flatten(Contents())|) + |message|
    {
      var n := |pages| - 1;
      var grown := pages[n := AppendMessage(pages[n], message)];
      ghost var more := held[n := held[n] + [message]];
      AppendStored(pages, held, message, grown, more);
      pages, held, bytes, items := grown, more, bytes + |message|, items + 1;
    }

    method Pop(room: nat) returns (error: nat, msg: Bytes, size: nat)
      requires Valid()
      modifies this
      ensures Valid() && Limit() == old(Limit())
      ensures old(Contents()) == [] ==> error == ENOMSG
      ensures old(Contents()) != [] ==>
        error == (if |old(Contents())[0]| <= room then 0 else EMSGSIZE) && size == |old(Contents())[0]|
      ensures error == 0 ==> old(Contents()) == [msg] + Contents()
      ensures Contents() == After(Limit(), old(Contents()), Op.Pop(room))
    {
      error, msg, size := Peek(room);
      if error != 0 { return; }
      HeadInFirstPage(pages, held);
      DropStored(pages, held);
      var first := DropMessage(pages[0], size);
      pages := if first.items == 0 then pages[1..] else pages[0 := first];
      held := DropHeld(held);
      bytes, items := bytes - size, items - 1;
    }

    /** Any run of pushes, peeks and pops: the messages popped and accepted, in order. */
    method Perform(ops: seq<Op>) returns (popped: seq<Bytes>, accepted: seq<Bytes>)
      requires Valid() && forall i :: 0 <= i < |ops| && ops[i].Push? ==> WellFormed(ops[i].m)
      modifies this
      ensures Valid() && Limit() == old(Limit())
      ensures Contents() == Run(Limit(), old(Contents()), ops)
      ensures popped == Popped(Limit(), old(Contents()), ops) && accepted == Accepted(Limit(), old(Contents()), ops)
      ensures popped + Contents() == old(Contents()) + accepted
    {
      popped, accepted := [], [];
      ghost var l, q := Limit(), Contents();
      assert ops[..0] == [];
      for i := 0 to |ops|
        invariant Valid() && Limit() == l && Contents() == Run(l, q, ops[..i])
        invariant popped == Popped(l, q, ops[..i]) && accepted == Accepted(l, q, ops[..i])
      {
        assert ops[..i + 1][..i] == ops[..i];
        match ops[i]
        case Push(m) =>
          var error := Push(m);
          if error == 0 { accepted := accepted + [m]; }
        case Peek(room) =>
          var _, _, _ := Peek(room);
        case Pop(room) =>
          var error, msg, _ := Pop(room);
          if error == 0 { popped := popped + [msg]; }
      }
      assert ops[..|ops|] == ops;
      PoppedThenQueuedIsAccepted(l, q, ops);
    }
  }

  /** Room for sixteen messages of average size, or for the one at hand. */
  function PageCapacity(average: nat, minSize: nat): nat {
    var size := average * 16;
    if size < minSize then minSize else size
  }

  function EmptyPage(size: nat): Page {
    Page(size, 0, 0, 0, 0, seq(size, i => 0))
  }

  function AppendMessage(p: Page, m: Bytes): Page
    requires p.push + |m| <= p.capacity == |p.data|
  {
    Page(p.capacity, p.bytes + |m|, p.items + 1, p.pop, p.push + |m|,
         p.data[..p.push] + m + p.data[p.push + |m|..])
  }

  function DropMessage(p: Page, size: nat): Page
    requires size <= p.bytes && p.items > 0
  {
    Page(p.capacity, p.bytes - size, p.items - 1, p.pop + size, p.push, p.data)
  }

  lemma AppendHolds(p: Page, ms: seq<Bytes>, m: Bytes)
    requires Holds(p, ms) && WellFormed(m) && p.push + |m| <= p.capacity
    ensures Holds(AppendMessage(p, m), ms + [m])
  {
    var q := AppendMessage(p, m);
    FlattenSnoc(ms, m);
    assert q.data[q.pop..q.push] == p.data[p.pop..p.push] + m;
  }

  lemma DropHolds(p: Page, ms: seq<Bytes>)
    requires Holds(p, ms) && ms != []
    ensures |ms[0]| <= p.bytes && Holds(DropMessage(p, |ms[0]|), ms[1..])
  {
    var q := DropMessage(p, |ms[0]|);
    assert q.data[q.pop..q.push] == p.data[p.pop..p.push][|ms[0]|..];
  }

  /** Dropping the first page's first message drops the first of all. */
  lemma DropFromFirst(held: seq<seq<Bytes>>)
    requires held != [] && held[0] != []
    ensures Flatten(held) == [held[0][0]] + Flatten(held[0 := held[0][1..]])
    ensures held[0][1..] == [] ==> Flatten(held[0 := held[0][1..]]) == Flatten(held[0 := held[0][1..]][1..])
    ensures Flatten(Flatten(held)) == held[0][0] + Flatten(Flatten(held[0 := held[0][1..]]))
  {
    var rest := held[0 := held[0][1..]];
    assert rest[1..] == held[1..];
    assert Flatten(held) == [held[0][0]] + Flatten(rest) by {
      assert held[0] + Flatten(held[1..]) == [held[0][0]] + (held[0][1..] + Flatten(held[1..]));
    }
    FlattenCons(held[0][0], Flatten(rest));
  }

  lemma FlattenCons<T>(s: seq<T>, rest: seq<seq<T>>)
    ensures Flatten([s] + rest) == s + Flatten(rest)
  {
    assert ([s] + rest)[1..] == rest;
  }

  /** Appending to the last page's messages appends to the whole. */
  lemma AppendStored(pages: seq<Page>, held: seq<seq<Bytes>>, m: Bytes, pages': seq<Page>, held': seq<seq<Bytes>>)
    requires Stored(pages, held) && pages != [] && WellFormed(m) && NoneEmpty(held, |held| - 1)
    requires HasRoom(pages, |m|)
    requires pages' == pages[|pages| - 1 := AppendMessage(pages[|pages| - 1], m)]
    requires held' == held[|held| - 1 := held[|held| - 1] + [m]]
    ensures Stored(pages', held') && NoneEmpty(held', |held'|)
    ensures Flatten(held') == Flatten(held) + [m]
    ensures Flatten(Flatten(held')) == Flatten(Flatten(held)) + m
  {
    AppendHolds(pages[|pages| - 1], held[|pages| - 1], m);
    AppendFlatten(held, m, held');
    FlattenSnoc(Flatten(held), m);
  }

  lemma AppendFlatten(held: seq<seq<Bytes>>, m: Bytes, held': seq<seq<Bytes>>)
    requires held != [] && held' == held[|held| - 1 := held[|held| - 1] + [m]]
    ensures Flatten(held') == Flatten(held) + [m]
  {
    var front, last := held[..|held| - 1], held[|held| - 1];
    assert held == front + [last] && held' == front + [last + [m]];
    FlattenSnoc(front, last);
    FlattenSnoc(front, last + [m]);
    assert Flatten(front) + (last + [m]) == (Flatten(front) + last) + [m];
  }

  ghost function DropHeld(held: seq<seq<Bytes>>): seq<seq<Bytes>>
    requires held != [] && held[0] != []
  {
    if |held[0]| == 1 then held[1..] else held[0 := held[0][1..]]
  }

  /** Dropping the first page's first message drops the first of all; an emptied page goes with it. */
  lemma DropStored(pages: seq<Page>, held: seq<seq<Bytes>>)
    requires Stored(pages, held) && NoneEmpty(held, |held|) && pages != []
    ensures |held[0][0]| <= pages[0].bytes && pages[0].items > 0
    ensures var first := DropMessage(pages[0], |held[0][0]|);
            Stored(if first.items == 0 then pages[1..] else pages[0 := first], DropHeld(held))
    ensures NoneEmpty(DropHeld(held), |DropHeld(held)|)
    ensures Flatten(held) == [held[0][0]] + Flatten(DropHeld(held))
    ensures Flatten(Flatten(held)) == held[0][0] + Flatten(Flatten(DropHeld(held)))
  {
    DropHolds(pages[0], held[0]);
    DropFromFirst(held);
  }

  /** The next message starts at the first page's pop position, and its size field is intact. */
  lemma HeadInFirstPage(pages: seq<Page>, held: seq<seq<Bytes>>)
    requires Stored(pages, held) && NoneEmpty(held, |held|) && Flatten(held) != []
    ensures held != [] && Flatten(held)[0] == held[0][0]
    ensures var p, m := pages[0], held[0][0];
            && WellFormed(m) && p.pop + |m| <= p.push <= |p.data|
            && p.data[p.pop..p.pop + |m|] == m && ReadSize(p.data, p.pop) == |m|
  {
    var p, m := pages[0], held[0][0];
    assert Flatten(held) == held[0] + Flatten(held[1..]);
    assert Flatten(held[0]) == m + Flatten(held[0][1..]);
    assert p.data[p.pop..p.push][..|m|] == m;
    assert p.data[p.pop..p.pop + |m|] == p.data[p.pop..p.push][..|m|];
    assert forall i :: 0 <= i < 8 ==> p.data[p.pop + i] == m[i];
  }
}
