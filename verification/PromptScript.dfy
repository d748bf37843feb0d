/**
 class PromptScript of services/card_scripts.py: queues of byte buffers on the
 heap, one queue object possibly behind several keywords.
 */
module PromptScripts {
  import opened Wrappers
  import opened Bytes
  import opened CardScripts

  /** A Python list of bytearrays. */
  class Queue {
    var items: seq<array<byte>>

    constructor ()
      ensures items == []
    {
      items := [];
    }
  }

  predicate Zeroed(b: array<byte>)
    reads b
  {
    forall i | 0 <= i < b.Length :: b[i] == 0
  }

  /** The queue object holds owned buffers with just these bytes. */
  ghost predicate Shows(q: Queue, items: seq<Item>, buffers: seq<array<byte>>)
    reads q, buffers
  {
    && |q.items| == |items|
    && forall j | 0 <= j < |items| :: q.items[j] in buffers && q.items[j][..] == items[j].data
  }

  class PromptScript {
    var queues: map<string, Queue>
    var buffers: seq<array<byte>>

    ghost var script: Script                 // what the two fields amount to
    ghost var pool: seq<Queue>               // the queue objects, by the script's queue numbers
    ghost var added: seq<array<byte>>        // every buffer this script ever owned
    ghost var Repr: set<object>

    ghost predicate Valid()
      reads this, Repr
    {
      && this in Repr && (forall q | q in pool :: q in Repr) && (forall b | b in added :: b in Repr)
      && (forall b | b in buffers :: b in added)
      && (forall b | b in added :: b in buffers || Zeroed(b))
      && WellFormed(script) && |pool| == |script.queues| && |buffers| == script.buffers
      && (forall i, j | 0 <= i < j < |pool| :: pool[i] != pool[j])
      && queues.Keys == script.queueOf.Keys
      && (forall k | k in queues :: queues[k] == pool[script.queueOf[k]])
      && (forall n | 0 <= n < |pool| :: Shows(pool[n], script.queues[n], buffers))
    }

    constructor ()
      ensures Valid() && fresh(Repr) && script == EMPTY && added == []
    {
      queues, buffers := map[], [];
      script, pool, added, Repr := EMPTY, [], [], {this};
    }

    /** `self._queues.setdefault(keyword, [])`. */
    method SetDefault(keyword: string) returns (q: Queue)
      requires Valid()
      modifies this
      ensures Valid() && fresh(Repr - old(Repr))
      ensures script == WithQueue(old(script), keyword) && q == pool[script.queueOf[keyword]]
      ensures added == old(added)
    {
      if keyword in queues {
        q := queues[keyword];
      } else {
        q := NewQueue(keyword);
      }
    }

    method NewQueue(keyword: string) returns (q: Queue)
      requires Valid() && keyword !in queues
      modifies this
      ensures Valid() && fresh(Repr - old(Repr))
      ensures script == WithQueue(old(script), keyword) && q == pool[script.queueOf[keyword]]
      ensures added == old(added)
    {
      q := new Queue();
      script, pool := WithQueue(script, keyword), pool + [q];
      queues := queues[keyword := q];
      Repr := Repr + {q};
      forall n | 0 <= n < |pool| - 1
        ensures Shows(pool[n], script.queues[n], buffers)
      {
        assert pool[n] == old(pool)[n] && script.queues[n] == old(script).queues[n];
        assert old(Shows(pool[n], script.queues[n], buffers));
      }
    }

    /** One turn of `add`'s loop: `_to_buffer`, then both appends. */
    method AppendOne(q: Queue, ghost n: nat, a: Answer)
      requires Valid() && n < |pool| && q == pool[n]
      modifies this, q
      ensures Valid() && fresh(Repr - old(Repr)) && pool == old(pool)
      ensures script == Append(old(script), n, [NewItem(old(script).buffers, a)])
      ensures |added| == |old(added)| + 1 && old(added) <= added
    {
      var bytes := if a.Word? then a.utf8 else a.raw;
      var buffer := new byte[|bytes|](i requires 0 <= i < |bytes| => bytes[i]);
      assert buffer[..] == bytes;
      buffers := buffers + [buffer];
      q.items := q.items + [buffer];
      added := added + [buffer];
      script := Append(script, n, [NewItem(script.buffers, a)]);
      Repr := Repr + {buffer};
      forall m | 0 <= m < |pool|
        ensures Shows(pool[m], script.queues[m], buffers)
      {
        assert old(Shows(pool[m], script.queues[m], buffers));
      }
    }

    /** The loop of `add`. */
    method AppendAll(queue: Queue, ghost n: nat, answers: seq<Answer>)
      requires Valid() && n < |pool| && queue == pool[n]
      modifies this, queue
      ensures Valid() && fresh(Repr - old(Repr))
      ensures script == Append(old(script), n, Items(old(script).buffers, answers))
      ensures |added| == |old(added)| + |answers| && old(added) <= added
    {
      ghost var t, items := script, Items(script.buffers, answers);
      AppendNothing(t, n);
      for i := 0 to |answers|
        invariant Valid() && fresh(Repr - old(Repr)) && n < |pool| && queue == pool[n]
        invariant script == Append(t, n, items[..i])
        invariant |added| == |old(added)| + i && old(added) <= added
      {
        AppendOne(queue, n, answers[i]);
        AppendTwice(t, n, items, i);
      }
      assert items[..|answers|] == items;
    }

    /** `add`. */
    method Add(keyword: string, answers: seq<Answer>)
      requires Valid()
      modifies Repr
      ensures Valid() && fresh(Repr - old(Repr))
      ensures script == CardScripts.Add(old(script), keyword, answers)
      ensures |added| == |old(added)| + |answers| && old(added) <= added
    {
      var queue := SetDefault(keyword);
      AppendAll(queue, script.queueOf[keyword], answers);
    }

    /** `self._queues[keyword] = shared`. */
    method AliasOne(keyword: string, shared: Queue, ghost q: nat)
      requires Valid() && q < |pool| && shared == pool[q]
      modifies this`queues, this`script
      ensures Valid() && script == old(script).(queueOf := old(script).queueOf[keyword := q])
    {
      queues := queues[keyword := shared];
      script := script.(queueOf := script.queueOf[keyword := q]);
    }

    /** `share`: the other keywords get the first one's queue object. */
    method Share(keywords: seq<string>, answers: seq<Answer>)
      requires Valid()
      modifies Repr
      ensures Valid() && fresh(Repr - old(Repr))
      ensures script == CardScripts.Share(old(script), keywords, answers) && old(added) <= added
    {
      if keywords == [] {
        return;
      }
      Add(keywords[0], answers);
      AliasAll(keywords[1..], queues[keywords[0]], script.queueOf[keywords[0]]);
    }

    /** The loop of `share`. */
    method AliasAll(keywords: seq<string>, shared: Queue, ghost q: nat)
      requires Valid() && q < |pool| && shared == pool[q]
      modifies this`queues, this`script
      ensures Valid() && script == Alias(old(script), keywords, q)
    {
      for i := 0 to |keywords|
        invariant Valid() && q < |pool| && shared == pool[q] && |script.queues| == |old(script).queues|
        invariant Alias(old(script), keywords, q) == Alias(script, keywords[i..], q)
      {
        assert keywords[i..][0] == keywords[i] && keywords[i..][1..] == keywords[i + 1..];
        AliasOne(keywords[i], shared, q);
      }
    }

    /** `take`: a copy of the next answer's bytes; the buffer stays with the script. */
    method Take(keyword: string) returns (answer: Option<bytes>)
      requires Valid()
      modifies Repr
      ensures Valid() && Repr == old(Repr) && added == old(added)
      ensures script == CardScripts.Take(old(script), keyword).0
      ensures answer == match CardScripts.Take(old(script), keyword).1 case None => None case Some(item) => Some(item.data)
    {
      if keyword !in queues || queues[keyword].items == [] {
        return None;
      }
      var queue := queues[keyword];
      ghost var n := script.queueOf[keyword];
      answer := Some(queue.items[0][..]);
      queue.items := queue.items[1..];
      script := CardScripts.Take(script, keyword).0;
      forall m | 0 <= m < |pool|
        ensures Shows(pool[m], script.queues[m], buffers)
      {
        assert old(Shows(pool[m], script.queues[m], buffers));
      }
    }

    /** `pending`. */
    method PendingAnswers() returns (r: map<string, nat>)
      requires Valid()
      ensures r == Pending(script)
    {
      forall k | k in queues
        ensures |queues[k].items| == |QueueOf(script, k)|
      {
        assert Shows(pool[script.queueOf[k]], script.queues[script.queueOf[k]], buffers);
      }
      r := map k | k in queues && queues[k].items != [] :: |queues[k].items|;
    }

    /** `wipe`: afterwards every buffer ever added, handed out or not, is all zero. */
    method Wipe()
      requires Valid()
      modifies Repr
      ensures Valid() && Repr == old(Repr) && script == EMPTY
      ensures added == old(added) && forall b | b in added :: Zeroed(b)
    {
      for i := 0 to |buffers|
        invariant this in Repr && Repr == old(Repr) && added == old(added) && buffers == old(buffers)
        invariant forall b | b in added :: b in Repr
        invariant forall b | b in added :: b in buffers[i..] || Zeroed(b)
      {
        var buffer := buffers[i];
        forall j | 0 <= j < buffer.Length {
          buffer[j] := 0;
        }
        assert buffers[i..] == [buffer] + buffers[i + 1..];
      }
      buffers, queues := [], map[];
      script, pool := EMPTY, [];
    }
  }

  lemma AppendNothing(t: Script, n: nat)
    requires WellFormed(t) && n < |t.queues|
    ensures Append(t, n, []) == t
  {
    assert t.queues[n] + [] == t.queues[n];
    assert t.queues[n := t.queues[n]] == t.queues;
  }

  lemma AppendTwice(t: Script, n: nat, items: seq<Item>, i: nat)
    requires WellFormed(t) && n < |t.queues| && i < |items|
    ensures Append(Append(t, n, items[..i]), n, [items[i]]) == Append(t, n, items[..i + 1])
  {
    assert items[..i + 1] == items[..i] + [items[i]];
    var a, b := t.queues[n] + items[..i] + [items[i]], t.queues[n] + items[..i + 1];
    assert a == b;
  }

  // ---------------------------------------------------------------- the builders

  /** The builders' `add` calls, in order. */
  method AddMenuTo(script: PromptScript, menu: seq<(string, seq<Answer>)>)
    requires script.Valid()
    modifies script.Repr
    ensures script.Valid() && fresh(script.Repr - old(script.Repr)) && script.script == AddMenu(old(script.script), menu)
  {
    for i := 0 to |menu|
      invariant script.Valid() && fresh(script.Repr - old(script.Repr))
      invariant AddMenu(old(script.script), menu) == AddMenu(script.script, menu[i..])
    {
      assert menu[i..][0] == menu[i] && menu[i..][1..] == menu[i + 1..];
      script.Add(menu[i].0, menu[i].1);
    }
  }

  /** The four builder functions: a fresh script object, unless a pin is refused. */
  method BuildScript(cs: CardScript) returns (r: Option<PromptScript>)
    ensures r.Some? <==> Build(cs).Some?
    ensures r.Some? ==> fresh(r.value) && fresh(r.value.Repr) && r.value.Valid() && r.value.script == Build(cs).value
  {
    if !Accepted(cs) {
      return None;
    }
    var script := new PromptScript();
    AddMenuTo(script, Menu(cs));
    script.Share(SECRET_PROMPTS, Secrets(cs));
    r := Some(script);
  }
}
