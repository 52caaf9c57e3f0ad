/**
 * The named in-process mailboxes: every mailbox class, when it is defined,
 * registers one FIFO queue under its class name in a registry shared by all
 * of them; `send` appends to the class's queue and `recv` takes the oldest
 * item without blocking, or nothing when the queue is empty.
 */
module Mailboxes {
  import opened Wrappers

  /** The severity a log line is shown with. */
  datatype LogLevel = Success | Error | Warning | Info

  /** A log line and its severity. */
  datatype Message = Message(body: string, level: LogLevel)

  /** The registry: class name to the items waiting in its queue, oldest first. */
  type Queues<T> = map<string, seq<T>>

  /** The five classes defined at import time, in order of definition. */
  const TopicNames: seq<string> := ["BaseQueue", "LogQueue", "MovesQueue", "EvaluationQueue", "ImageArrayQueue"]

  /**
   * Defining a class named `name`, as written: the guard compares the class
   * object with the name keys, never finds it, and always installs a fresh queue.
   */
  function Defined<T>(qs: Queues<T>, name: string): (r: Queues<T>)
    ensures name in r && |r[name]| == 0
    ensures forall n :: n in qs && n != name ==> n in r && r[n] == qs[n]
    ensures forall n :: n in r ==> n in qs || n == name
  {
    qs[name := []]
  }

  /** Defining a class with the evidently intended guard: an existing queue is kept. */
  function DefinedOnce<T>(qs: Queues<T>, name: string): (r: Queues<T>)
    ensures name in r && (name in qs ==> r[name] == qs[name]) && (name !in qs ==> |r[name]| == 0)
    ensures forall n :: n in qs && n != name ==> n in r && r[n] == qs[n]
    ensures forall n :: n in r ==> n in qs || n == name
  {
    if name in qs then qs else qs[name := []]
  }

  /** `send`: `msg` joins the back of the named queue. */
  function Sent<T>(qs: Queues<T>, name: string, msg: T): (r: Queues<T>)
    requires name in qs
    ensures name in r && r[name] == qs[name] + [msg]
  {
    qs[name := qs[name] + [msg]]
  }

  /** `recv`: the oldest item and the registry without it, or None and the registry unchanged. */
  function Received<T>(qs: Queues<T>, name: string): (r: (Option<T>, Queues<T>))
    requires name in qs
    ensures name in r.1
    ensures |qs[name]| == 0 ==> r.0 == None && r.1 == qs
    ensures |qs[name]| > 0 ==> r.0 == Some(qs[name][0]) && r.1[name] == qs[name][1..]
  {
    if |qs[name]| == 0 then (None, qs) else (Some(qs[name][0]), qs[name := qs[name][1..]])
  }

  /** Defining the given classes one after another (with the intended guard). */
  function DefineAll<T>(qs: Queues<T>, names: seq<string>): Queues<T>
    decreases |names|
  {
    if names == [] then qs else DefineAll(DefinedOnce(qs, names[0]), names[1..])
  }

  /** Sending the given items one after another. */
  function SendAll<T>(qs: Queues<T>, name: string, items: seq<T>): (r: Queues<T>)
    requires name in qs
    ensures name in r
    decreases |items|
  {
    if items == [] then qs else SendAll(Sent(qs, name, items[0]), name, items[1..])
  }

  /** Receiving `n` times in a row: the items obtained and the final registry. */
  function ReceiveN<T>(qs: Queues<T>, name: string, n: nat): (r: (seq<Option<T>>, Queues<T>))
    requires name in qs
    ensures |r.0| == n && name in r.1
  {
    if n == 0 then ([], qs)
    else
      var (first, qs') := Received(qs, name);
      var (rest, qs'') := ReceiveN(qs', name, n - 1);
      ([first] + rest, qs'')
  }

  function Wrapped<T>(items: seq<T>): (r: seq<Option<T>>)
    ensures |r| == |items| && forall i :: 0 <= i < |items| ==> r[i] == Some(items[i])
  {
    if items == [] then [] else [Some(items[0])] + Wrapped(items[1..])
  }

  // ----- properties -----

  /** Sending appends the items, in order, to the back of the queue. */
  lemma {:induction false} SendAllAppends<T>(qs: Queues<T>, name: string, items: seq<T>)
    requires name in qs
    ensures SendAll(qs, name, items)[name] == qs[name] + items
    ensures forall n :: n in qs && n != name ==> n in SendAll(qs, name, items) && SendAll(qs, name, items)[n] == qs[n]
    decreases |items|
  {
    if items != [] {
      SendAllAppends(Sent(qs, name, items[0]), name, items[1..]);
      assert qs[name] + [items[0]] + items[1..] == qs[name] + items;
    }
  }

  /** Receiving as many times as there are items yields them oldest first and empties the queue. */
  lemma {:induction false} ReceiveInOrder<T>(qs: Queues<T>, name: string)
    requires name in qs
    ensures ReceiveN(qs, name, |qs[name]|).0 == Wrapped(qs[name])
    ensures |ReceiveN(qs, name, |qs[name]|).1[name]| == 0
    decreases |qs[name]|
  {
    if |qs[name]| > 0 {
      var qs' := Received(qs, name).1;
      ReceiveInOrder(qs', name);
    }
  }

  /** First in, first out: what was queued before, then what was sent, comes back in that order. */
  lemma Fifo<T>(qs: Queues<T>, name: string, items: seq<T>)
    requires name in qs
    ensures var after := SendAll(qs, name, items);
      ReceiveN(after, name, |qs[name]| + |items|).0 == Wrapped(qs[name] + items)
  {
    SendAllAppends(qs, name, items);
    ReceiveInOrder(SendAll(qs, name, items), name);
  }

  /** `recv` on an empty queue gives None and changes nothing. */
  lemma ReceiveEmpty<T>(qs: Queues<T>, name: string)
    requires name in qs && |qs[name]| == 0
    ensures Received(qs, name) == (None, qs)
  {
  }

  /** `send` and `recv` on one topic leave every other topic's queue as it was. */
  lemma TopicsIsolated<T>(qs: Queues<T>, name: string, other: string, msg: T)
    requires name in qs && other in qs && other != name
    ensures Sent(qs, name, msg)[other] == qs[other]
    ensures Received(qs, name).1[other] == qs[other]
  {
  }

  /** At import time every class gets its own empty queue, and nothing else is registered. */
  lemma {:induction false} StartupRegistry<T>()
    ensures var qs := DefineAll<T>(map[], TopicNames);
      (forall n :: n in TopicNames ==> n in qs && |qs[n]| == 0) && (forall n :: n in qs ==> n in TopicNames)
  {
    var q0: Queues<T> := map[];
    var q1 := DefinedOnce(q0, TopicNames[0]);
    var q2 := DefinedOnce(q1, TopicNames[1]);
    var q3 := DefinedOnce(q2, TopicNames[2]);
    var q4 := DefinedOnce(q3, TopicNames[3]);
    var q5 := DefinedOnce(q4, TopicNames[4]);
    FreshDefinitionAgrees(q0, TopicNames[0]);
    FreshDefinitionAgrees(q1, TopicNames[1]);
    FreshDefinitionAgrees(q2, TopicNames[2]);
    FreshDefinitionAgrees(q3, TopicNames[3]);
    FreshDefinitionAgrees(q4, TopicNames[4]);
    assert DefineAll(q5, []) == q5;
    assert DefineAll(q4, TopicNames[4..]) == q5;
    assert DefineAll(q3, TopicNames[3..]) == q5;
    assert DefineAll(q2, TopicNames[2..]) == q5;
    assert DefineAll(q1, TopicNames[1..]) == q5;
  }

  /**
   * As written, defining a class again under a name already in use throws
   * away the items waiting in that queue.
   */
  lemma RedefinitionResets<T>(qs: Queues<T>, name: string)
    requires name in qs && |qs[name]| > 0
    ensures Defined(qs, name)[name] != qs[name]
  {
  }

  /** With the intended guard a redefinition keeps the waiting items. */
  lemma RedefinitionKeeps<T>(qs: Queues<T>, name: string)
    requires name in qs
    ensures DefinedOnce(qs, name) == qs
  {
  }

  /** For names not yet registered the two guards agree, so the five import-time definitions are unaffected. */
  lemma FreshDefinitionAgrees<T>(qs: Queues<T>, name: string)
    requires name !in qs
    ensures DefinedOnce(qs, name) == Defined(qs, name)
  {
  }

  /** The shared registry as an object whose queues are updated in place. */
  class Registry<T> {
    var queues: Queues<T>

    /** Importing the module: the five classes are defined in order. */
    constructor Startup()
      ensures queues == DefineAll(map[], TopicNames)
    {
      var qs: Queues<T> := map[];
      var i := 0;
      while i < |TopicNames|
        invariant 0 <= i <= |TopicNames|
        invariant DefineAll(qs, TopicNames[i..]) == DefineAll(map[], TopicNames)
      {
        assert TopicNames[i..][1..] == TopicNames[i + 1..];
        qs := DefinedOnce(qs, TopicNames[i]);
        i := i + 1;
      }
      queues := qs;
    }

    /** `QMeta.__new__` for a class named `name`, as written. */
    method DefineTopic(name: string)
      modifies this
      ensures queues == Defined(old(queues), name)
    {
      queues := queues[name := []];
    }

    /** `QMeta.__new__` with the intended guard: a name already registered keeps its queue. */
    method DefineTopicOnce(name: string)
      modifies this
      ensures queues == DefinedOnce(old(queues), name)
    {
      if name !in queues {
        queues := queues[name := []];
      }
    }

    /** `send` on the class named `name`. */
    method Send(name: string, msg: T)
      requires name in queues
      modifies this
      ensures queues == Sent(old(queues), name, msg)
    {
      queues := queues[name := queues[name] + [msg]];
    }

    /** `recv` on the class named `name`: `get(False)`, with `queue.Empty` turned into None. */
    method Recv(name: string) returns (item: Option<T>)
      requires name in queues
      modifies this
      ensures (item, queues) == Received(old(queues), name)
    {
      var q := queues[name];
      if |q| == 0 {
        return None;
      }
      item := Some(q[0]);
      queues := queues[name := q[1..]];
    }
  }
}
