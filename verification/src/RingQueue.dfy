/** SPSCQueue with its fields in place, as one thread at a time sees it: each call is the
    whole run of its steps in module Spsc, with loads of the newest index. MPSCQueue does the
    same between taking and releasing its lock. */
module RingQueue {
  import opened Mask
  import opened Spsc
  import B = Book

  /** Both sides have seen everything. */
  ghost function Newest<T>(r: Ring<T>): Ring<T> {
    r.(seenHead := |r.popped|, seenTail := |r.pushed|)
  }

  lemma NewestInv<T>(r: Ring<T>)
    requires Inv(r) && r.producer.Idle? && r.consumer.Waiting?
    ensures Inv(Newest(r))
  {
    var t := Newest(r);
    forall i | FirstKept(t) <= i < |t.pushed| ensures Kept(t, i) {
      assert Kept(r, i);
    }
  }

  /** The second half of a push. */
  lemma FinishPush<T>(r: Ring<T>)
    requires Inv(r) && r.producer.Admitted? && r.consumer.Waiting?
    ensures WellFormed(r) && Inv(Newest(Do(Do(r, WriteSlot), StoreTail)))
  {
    hide Inv;
    InvWellFormed(r);
    StepInv(r, WriteSlot);
    InvWellFormed(Do(r, WriteSlot));
    StepInv(Do(r, WriteSlot), StoreTail);
    NewestInv(Do(Do(r, WriteSlot), StoreTail));
  }

  lemma FinishPop<T>(r: Ring<T>, husk: T)
    requires Inv(r) && r.consumer.Nonempty? && r.producer.Idle?
    ensures WellFormed(r) && Inv(Newest(Do(Do(r, TakeSlot(husk)), StoreHead)))
  {
    hide Inv;
    InvWellFormed(r);
    StepInv(r, TakeSlot(husk));
    InvWellFormed(Do(r, TakeSlot(husk)));
    StepInv(Do(r, TakeSlot(husk)), StoreHead);
    NewestInv(Do(Do(r, TakeSlot(husk)), StoreHead));
  }

  /** What the steps of one push do, with no pop in between. */
  lemma PushSteps<T>(r: Ring<T>, item: T) returns (r2: Ring<T>)
    requires Inv(r) && r.producer.Idle? && r.consumer.Waiting?
    ensures WellFormed(r) && r2 == Do(Do(r, StartPush(item)), CheckRoom(|r.popped|))
    ensures r.head < r.cap && r.tail < r.cap && r.popped <= r.pushed
    ensures Next(r.tail, r.cap) == r.head <==> |r.pushed| - |r.popped| == r.cap - 1
    ensures |r.pushed| - |r.popped| < r.cap
    ensures r2.producer == if Next(r.tail, r.cap) == r.head then Idle else Admitted(item, r.tail, Next(r.tail, r.cap))
    ensures r2.producer.Admitted? ==> WellFormed(r2) && Inv(Newest(Do(Do(r2, WriteSlot), StoreTail)))
  {
    hide Kept, SizeOf, Next, Newest;
    var r1 := Do(r, StartPush(item));
    StepInv(r, StartPush(item));
    RoomVerdict(r1, |r.popped|);
    r2 := Do(r1, CheckRoom(|r.popped|));
    StepInv(r1, CheckRoom(|r.popped|));
    if r2.producer.Admitted? {
      FinishPush(r2);
    }
  }

  lemma PopSteps<T>(r: Ring<T>, husk: T) returns (r2: Ring<T>)
    requires Inv(r) && r.producer.Idle? && r.consumer.Waiting?
    ensures WellFormed(r) && r2 == Do(Do(r, StartPop), CheckItem(|r.pushed|))
    ensures r.head < r.cap && r.tail < r.cap && r.popped <= r.pushed
    ensures r.head == r.tail <==> r.pushed == r.popped
    ensures r2.consumer == if r.head == r.tail then Waiting else Nonempty(r.head)
    ensures r2.consumer.Nonempty? ==>
      && WellFormed(r2) && Inv(Newest(Do(Do(r2, TakeSlot(husk)), StoreHead)))
      && |r.popped| < |r.pushed| && r.buf[r.head] == r.pushed[|r.popped|]
  {
    hide SizeOf, Next, Newest;
    var r1 := Do(r, StartPop);
    StepInv(r, StartPop);
    ItemVerdict(r1, |r.pushed|);
    r2 := Do(r1, CheckItem(|r.pushed|));
    StepInv(r1, CheckItem(|r.pushed|));
    if r2.consumer.Nonempty? {
      assert Kept(r, |r.popped|);
      FinishPop(r2, husk);
    }
  }

  class Queue<T> {
    const buffer: array<T>
    var head: nat
    var tail: nat
    ghost var pushed: seq<T>
    ghost var popped: seq<T>

    /** The ring with no call in flight. */
    ghost function View(): Ring<T>
      reads this, buffer
    {
      Ring(buffer.Length, buffer[..], head, tail, Idle, Waiting, pushed, popped, |popped|, |pushed|)
    }

    ghost predicate Valid()
      reads this, buffer
    {
      Inv(View())
    }

    ghost function Contents(): (s: seq<T>)
      reads this, buffer
      requires Valid()
    {
      pushed[|popped|..]
    }

    /** The buffer's elements start with some value of the type. */
    constructor (capacity: nat, filler: T)
      requires Capacity(capacity)
      ensures Valid() && Contents() == [] && fresh(buffer) && buffer.Length == capacity
    {
      buffer := new T[capacity](_ => filler);
      head, tail, pushed, popped := 0, 0, [], [];
      new;
      NewInv(View());
    }

    /** False, and nothing changed, exactly when Capacity - 1 items are held. */
    method Push(item: T) returns (ok: bool)
      requires Valid()
      modifies this, buffer
      ensures Valid()
      ensures ok <==> |old(Contents())| < buffer.Length - 1
      ensures Contents() == if ok then old(Contents()) + [item] else old(Contents())
    {
      hide Inv, Next;
      ghost var r2 := PushSteps(View(), item);
      var currentTail := tail;
      var nextTail := Next(currentTail, buffer.Length);
      if nextTail == head {
        return false;
      }
      buffer[currentTail] := item;
      tail := nextTail;
      pushed := pushed + [item];
      assert View() == Newest(Do(Do(r2, WriteSlot), StoreTail));
      ok := true;
    }

    /** Nothing exactly when the queue is empty; otherwise its first item. */
    method Pop() returns (item: B.Option<T>)
      requires Valid()
      modifies this
      ensures Valid()
      ensures item == if old(Contents()) == [] then B.None else B.Some(old(Contents()[0]))
      ensures Contents() == if old(Contents()) == [] then [] else old(Contents())[1..]
    {
      var currentHead := head;
      ghost var r2 := PopSteps(View(), buffer[currentHead]);
      if currentHead == tail {
        return B.None;
      }
      item := B.Some(buffer[currentHead]);
      popped := popped + [buffer[currentHead]];
      head := Next(currentHead, buffer.Length);
      assert View() == Newest(Do(Do(r2, TakeSlot(buffer[currentHead])), StoreHead));
    }

    method IsEmpty() returns (empty: bool)
      requires Valid()
      ensures empty <==> Contents() == []
    {
      SizeIsCount(|popped|, |pushed|, buffer.Length);
      SameSlot(|popped|, |pushed|, buffer.Length);
      empty := head == tail;
    }

    method Size() returns (n: nat)
      requires Valid()
      ensures n == |Contents()| < buffer.Length
    {
      SizeIsCount(|popped|, |pushed|, buffer.Length);
      n := SizeOf(head, tail, buffer.Length);
    }
  }
}
