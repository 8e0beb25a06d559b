/**
The order in which a file's top-level messages are generated: each after the ones it uses, and of messages
that use each other in a cycle, the one reached first last.
*/
module DependencyOrders {
  datatype Option<T> = None | Some(value: T)

  /** What type a field has: none of messages, a message of another file, or message d of this file. */
  datatype FieldType = Scalar | Foreign | Message(d: nat)

  /** A message type: its fields' types, the messages declared in it, and the message it is declared in. */
  datatype Descriptor = Descriptor(fields: seq<FieldType>, nested: seq<nat>, container: Option<nat>)

  /** A file's message types, each before those declared in it, and which of them are at the top level. */
  datatype File = File(messages: seq<Descriptor>, top: seq<nat>) {

    ghost predicate MessageOk(d: nat) {
      d < |messages| ==>
        && (messages[d].container.Some?
          ==> messages[d].container.value < d && d in messages[messages[d].container.value].nested)
        && (forall i :: 0 <= i < |messages[d].nested| ==>
          d < messages[d].nested[i] < |messages| && messages[messages[d].nested[i]].container == Some(d))
        && Distinct(messages[d].nested)
        && (forall i ::
          0 <= i < |messages[d].fields| && messages[d].fields[i].Message?
          ==> messages[d].fields[i].d < |messages|)
        && (messages[d].container.None? <==> d in top)
    }

    ghost predicate Ok() {
      && (forall d: nat {:trigger MessageOk(d)} :: MessageOk(d))
      && (forall i :: 0 <= i < |top| ==> top[i] < |messages|)
      && (forall i, j :: 0 <= i < j < |top| ==> top[i] != top[j])
    }

    /** The top-level message that d is, or is declared in. */
    ghost function Top(d: nat): (r: nat)
      requires Ok() && d < |messages|
      ensures r < |messages| && messages[r].container.None? && r in top
      ensures messages[d].container.None? ==> r == d
    {
      assert MessageOk(d);
      if messages[d].container.None? then d else Top(messages[d].container.value)
    }

    /** A field of d has message x of this file as its type. */
    ghost predicate Names(d: nat, x: nat) {
      d < |messages| && Message(x) in messages[d].fields
    }

    /** Top-level message a, or one declared in it, has a field whose type is another top-level message b, or declared
        in it. */
    ghost predicate Uses(a: nat, b: nat)
      requires Ok()
    {
      a != b && exists d: nat, x: nat :: d < |messages| && x < |messages| && Top(d) == a && Names(d, x) && Top(x) == b
    }

    /** A walk from each message to one it uses. */
    ghost predicate Path(p: seq<nat>)
      requires Ok()
    {
      |p| >= 2 && forall i {:trigger p[i]} :: 0 <= i < |p| - 1 ==> Uses(p[i], p[i + 1])
    }

    ghost predicate Reaches(a: nat, b: nat)
      requires Ok()
    {
      exists p: seq<nat> :: Path(p) && p[0] == a && p[|p| - 1] == b
    }

    lemma UseReaches(a: nat, b: nat)
      requires Ok() && Uses(a, b)
      ensures Reaches(a, b)
    {
      assert Path([a, b]);
    }

    lemma ReachesOn(a: nat, b: nat, c: nat)
      requires Ok() && Reaches(a, b) && Uses(b, c)
      ensures Reaches(a, c)
    {
      var p :| Path(p) && p[0] == a && p[|p| - 1] == b;
      var q := p + [c];
      assert forall i {:trigger q[i]} :: 0 <= i < |q| - 1 ==> Uses(q[i], q[i + 1]);
      assert Path(q);
    }

    // ---- Walking over the messages declared in a message ----

    /** The messages are m or declared in it, and none is done. */
    ghost predicate Pending(m: nat, pending: seq<nat>, done: set<nat>)
      requires Ok()
    {
      && (forall d :: d in done ==> d < |messages| && Top(d) == m)
      && (forall i {:trigger pending[i]} ::
        0 <= i < |pending|
        ==> pending[i] < |messages| && Top(pending[i]) == m && pending[i] !in done)
    }

    ghost predicate Distinct(s: seq<nat>) {
      forall i, j {:trigger s[i], s[j]} :: 0 <= i < j < |s| ==> s[i] != s[j]
    }

    /** The message c is declared in is done. */
    ghost predicate Inside(c: nat, done: set<nat>) {
      c < |messages| && messages[c].container.Some? && messages[c].container.value in done
    }

    ghost predicate Started(m: nat, pending: seq<nat>, done: set<nat>) {
      && (m in done || m in pending)
      && (forall c {:trigger Inside(c, done)} :: c in done || c in pending ==> c == m || Inside(c, done))
    }

    /** Each message declared in one that is done is done or pending. */
    ghost predicate Closed(pending: seq<nat>, done: set<nat>) {
      forall c, x {:trigger c in done, x in pending} {:trigger c in done, x in done} ::
        c in done && c < |messages| && x in messages[c].nested ==> x in done || x in pending
    }

    /** Of the messages declared in m, those done and those pending, each once; no other is needed once none is
        pending. */
    ghost predicate Walk(m: nat, pending: seq<nat>, done: set<nat>)
      requires Ok()
    {
      Pending(m, pending, done) && Distinct(pending) && Started(m, pending, done) && Closed(pending, done)
    }

    lemma WalkStarts(m: nat)
      requires Ok() && m in top
      ensures Top(m) == m && Walk(m, [m], {})
    {
      assert MessageOk(m);
    }

    function Next(pending: seq<nat>): seq<nat>
      requires pending != [] && pending[|pending| - 1] < |messages|
    {
      pending[..|pending| - 1] + messages[pending[|pending| - 1]].nested
    }

    /** Its last message done, the walk goes on with those declared in it. */
    lemma WalkOn(m: nat, pending: seq<nat>, done: set<nat>)
      requires Ok() && Walk(m, pending, done) && pending != []
      ensures var d := pending[|pending| - 1];
          d < |messages| && Top(d) == m && d !in done
          && Walk(m, Next(pending), done + {d})
    {
      var d := pending[|pending| - 1];
      assert MessageOk(d);
      assert d !in done;
      hide Ok, MessageOk;
      PendingOn(m, pending, done, d);
      DistinctOn(m, pending, done, d);
      StartedOn(m, pending, done, d);
      ClosedOn(pending, done, d);
    }

    lemma NextIs(pending: seq<nat>, d: nat)
      requires pending != [] && d == pending[|pending| - 1] < |messages|
      ensures forall c :: c in Next(pending) <==> c in pending[..|pending| - 1] || c in messages[d].nested
      ensures forall c :: c in pending ==> c in pending[..|pending| - 1] || c == d
    {
      assert pending == pending[..|pending| - 1] + [d];
    }

    /** What is declared in d is neither done nor pending while d is not done. */
    lemma NestedIsNew(m: nat, pending: seq<nat>, done: set<nat>, d: nat, c: nat)
      requires Ok() && Walk(m, pending, done) && d < |messages| && d !in done && Top(d) == m && c in messages[d].nested
      ensures c < |messages| && messages[c].container == Some(d) && c != d && Top(c) == m && c !in done && c !in pending
    {
      assert MessageOk(d);
      assert MessageOk(c);
      assert Top(m) == m && messages[m].container.None?;
      assert c in done || c in pending ==> c == m || Inside(c, done);
    }

    lemma PendingOn(m: nat, pending: seq<nat>, done: set<nat>, d: nat)
      requires Ok() && Walk(m, pending, done) && pending != [] && d == pending[|pending| - 1] < |messages| && d !in done
      requires Top(d) == m
      ensures Pending(m, Next(pending), done + {d})
    {
      hide Ok, MessageOk;
      var n := |pending| - 1;
      forall i | 0 <= i < |Next(pending)|
        ensures var c := Next(pending)[i];
        c < |messages| && Top(c) == m
        && c !in done + {d} {
        if i < n { assert Next(pending)[i] == pending[i]; } else { NestedIsNew(m, pending, done, d, Next(pending)[i]); }
      }
    }

    lemma DistinctOn(m: nat, pending: seq<nat>, done: set<nat>, d: nat)
      requires Ok() && Walk(m, pending, done) && pending != [] && d == pending[|pending| - 1] < |messages| && d !in done
      requires Top(d) == m
      requires Distinct(messages[d].nested)
      ensures Distinct(Next(pending))
    {
      hide Ok, MessageOk;
      var n := |pending| - 1;
      var s := Next(pending);
      forall i, j | 0 <= i < j < |s| ensures s[i] != s[j] {
        if i < n <= j {
          assert s[i] == pending[i];
          NestedIsNew(m, pending, done, d, s[j]);
        } else if j < n {
          assert s[i] == pending[i] && s[j] == pending[j];
        } else {
          assert s[i] == messages[d].nested[i - n] && s[j] == messages[d].nested[j - n];
        }
      }
    }

    lemma StartedOn(m: nat, pending: seq<nat>, done: set<nat>, d: nat)
      requires Ok() && Walk(m, pending, done) && pending != [] && d == pending[|pending| - 1] < |messages| && d !in done
      requires Top(d) == m
      ensures Started(m, Next(pending), done + {d})
    {
      hide Ok, MessageOk;
      NextIs(pending, d);
      forall c | c in done + {d} || c in Next(pending) ensures c == m || Inside(c, done + {d}) {
        if c in messages[d].nested { NestedIsNew(m, pending, done, d, c); } else { assert c == m || Inside(c, done); }
      }
    }

    lemma ClosedOn(pending: seq<nat>, done: set<nat>, d: nat)
      requires Closed(pending, done) && pending != [] && d == pending[|pending| - 1] < |messages|
      ensures Closed(Next(pending), done + {d})
    {
      NextIs(pending, d);
      forall c, x | c in done + {d} && c < |messages| && x in messages[c].nested
        ensures x in done + {d}
        || x in Next(pending) {
        if c != d { assert x in done || x in pending; }
      }
    }

    /** With nothing pending every message declared in m is done. */
    lemma {:induction false} AllDone(m: nat, done: set<nat>, d: nat)
      requires Ok() && Walk(m, [], done) && d < |messages| && Top(d) == m
      ensures d in done
      decreases d
    {
      assert MessageOk(d);
      if messages[d].container.Some? {
        AllDone(m, done, messages[d].container.value);
      }
    }

    // ---- The order in which messages are reached ----

    /** The other top-level message a field of m, or of a message declared in it, needs, if any. */
    ghost function UsedBy(field: FieldType, m: nat): (r: seq<nat>)
      requires Ok()
      ensures forall b :: b in r ==> b in top
    {
      if field.Message? && field.d < |messages| && Top(field.d) != m then [Top(field.d)] else []
    }

    /** Those the fields of d from field i on need. */
    ghost function Used(d: nat, i: nat, m: nat): (r: seq<nat>)
      requires Ok() && d < |messages| && i <= |messages[d].fields|
      ensures forall b :: b in r ==> b in top
      decreases |messages[d].fields| - i
    {
      if i == |messages[d].fields| then [] else UsedBy(messages[d].fields[i], m) + Used(d, i + 1, m)
    }

    /** Those the messages still to be walked over need. */
    ghost function UsedFrom(m: nat, pending: seq<nat>, done: set<nat>): (r: seq<nat>)
      requires Ok() && Walk(m, pending, done)
      ensures forall b :: b in r ==> b in top
      decreases Numbers(|messages|) - done
    {
      hide Ok, Walk, Used;
      if pending == [] then []
      else
        WalkOn(m, pending, done);
        var d := pending[|pending| - 1];
        Used(d, 0, m) + UsedFrom(m, Next(pending), done + {d})
    }

    /** The messages m uses, in the order in which its fields and those of the messages declared in it name them. */
    ghost function UseList(m: nat): (r: seq<nat>)
      requires Ok() && m in top
      ensures forall b :: b in r ==> b in top
    {
      WalkStarts(m);
      UsedFrom(m, [m], {})
    }

    ghost function Unseen(seen: seq<nat>): set<nat> {
      (set x | x in top) - (set x | x in seen)
    }

    /** The messages reached when those in `seen` have been and m is next: m, and what is reached from what it uses. */
    ghost function Discover(m: nat, seen: seq<nat>): (r: seq<nat>)
      requires Ok() && m in top
      ensures seen <= r && m in r && Unseen(r) <= Unseen(seen)
      decreases Unseen(seen), 0, 0
    {
      hide Ok, UseList;
      if m in seen then seen
      else
        assert m in Unseen(seen);
        DiscoverAll(UseList(m), seen + [m])
    }

    lemma DiscoverIs(m: nat, seen: seq<nat>)
      requires Ok() && m in top
      ensures Discover(m, seen) == if m in seen then seen else DiscoverAll(UseList(m), seen + [m])
    {
    }

    ghost function DiscoverAll(list: seq<nat>, seen: seq<nat>): (r: seq<nat>)
      requires Ok() && forall b :: b in list ==> b in top
      ensures seen <= r && (forall b :: b in list ==> b in r) && Unseen(r) <= Unseen(seen)
      decreases Unseen(seen), 1, |list|
    {
      hide Ok;
      if list == [] then seen else DiscoverAll(list[1..], Discover(list[0], seen))
    }

    /** The file's top-level messages in the order in which they are reached. */
    ghost function Discovered(): seq<nat>
      requires Ok()
    {
      DiscoverAll(top, [])
    }

    lemma {:induction false} DiscoverOn(a: seq<nat>, b: seq<nat>, seen: seq<nat>)
      requires Ok() && (forall x :: x in a ==> x in top) && (forall x :: x in b ==> x in top)
      ensures (forall x :: x in a + b ==> x in top) && DiscoverAll(a + b, seen) == DiscoverAll(b, DiscoverAll(a, seen))
      decreases |a|
    {
      hide Ok, Discover;
      if a == [] {
        assert a + b == b;
      } else {
        assert (a + b)[1..] == a[1..] + b;
        DiscoverOn(a[1..], b, Discover(a[0], seen));
      }
    }

    lemma NoneUsed(d: nat, m: nat, seen: seq<nat>)
      requires Ok() && d < |messages|
      ensures DiscoverAll(Used(d, |messages[d].fields|, m), seen) == seen
    {
    }

    lemma UsedOn(d: nat, i: nat, m: nat)
      requires Ok() && d < |messages| && i < |messages[d].fields|
      ensures Used(d, i, m) == UsedBy(messages[d].fields[i], m) + Used(d, i + 1, m)
    {
    }

    // ---- What is reached from where ----

    lemma ReachesTrans(a: nat, b: nat, c: nat)
      requires Ok() && Reaches(a, b) && Reaches(b, c)
      ensures Reaches(a, c)
    {
      hide Ok, Uses;
      var p: seq<nat> :| Path(p) && p[0] == a && p[|p| - 1] == b;
      var q: seq<nat> :| Path(q) && q[0] == b && q[|q| - 1] == c;
      var r := p + q[1..];
      forall i {:trigger r[i]} | 0 <= i < |r| - 1 ensures Uses(r[i], r[i + 1]) {
        if i < |p| - 1 { assert Uses(p[i], p[i + 1]); } else { assert Uses(q[i - |p| + 1], q[i - |p| + 2]); }
      }
      assert Path(r);
    }

    lemma {:induction false} UsedAreUses(d: nat, i: nat, m: nat, b: nat)
      requires Ok() && d < |messages| && i <= |messages[d].fields| && Top(d) == m && b in Used(d, i, m)
      ensures Uses(m, b)
      decreases |messages[d].fields| - i
    {
      hide Ok, Top;
      if b in UsedBy(messages[d].fields[i], m) {
        assert Names(d, messages[d].fields[i].d);
      } else {
        UsedAreUses(d, i + 1, m, b);
      }
    }

    lemma {:induction false} UsedFromAreUses(m: nat, pending: seq<nat>, done: set<nat>, b: nat)
      requires Ok() && Walk(m, pending, done) && b in UsedFrom(m, pending, done)
      ensures Uses(m, b)
      decreases Numbers(|messages|) - done
    {
      hide Ok, Walk, Used, Uses, Top;
      WalkOn(m, pending, done);
      var d := pending[|pending| - 1];
      if b in Used(d, 0, m) { UsedAreUses(d, 0, m, b); } else { UsedFromAreUses(m, Next(pending), done + {d}, b); }
    }

    /** What is newly reached from m is m or reached from it by uses. */
    lemma {:induction false} DiscoveredFrom(m: nat, seen: seq<nat>, x: nat)
      requires Ok() && m in top && x in Discover(m, seen) && x !in seen
      ensures x == m || Reaches(m, x)
      decreases Unseen(seen), 0, 0
    {
      hide Ok, Uses, Reaches;
      DiscoverIs(m, seen);
      if x != m {
        assert m in Unseen(seen);
        var b := DiscoveredFromSome(UseList(m), seen + [m], x);
        WalkStarts(m);
        UsedFromAreUses(m, [m], {}, b);
        UseReaches(m, b);
        if x != b { ReachesTrans(m, b, x); }
      }
    }

    lemma {:induction false} DiscoveredFromSome(list: seq<nat>, seen: seq<nat>, x: nat) returns (b: nat)
      requires Ok() && (forall c :: c in list ==> c in top) && x in DiscoverAll(list, seen) && x !in seen
      ensures b in list && (x == b || Reaches(b, x))
      decreases Unseen(seen), 1, |list|
    {
      hide Ok, Uses, Reaches, Discover;
      var now := Discover(list[0], seen);
      if x in now {
        DiscoveredFrom(list[0], seen, x);
        b := list[0];
      } else {
        b := DiscoveredFromSome(list[1..], now, x);
      }
    }

    /** The messages before top message i in the file, and those reached from them. */
    ghost function Before(i: nat): seq<nat>
      requires Ok() && i <= |top|
    {
      DiscoverAll(top[..i], [])
    }

    /** Top message i is reached next after those before it, if none of them reaches it. */
    lemma ReachedNext(i: nat)
      requires Ok() && i < |top| && forall j :: 0 <= j < i ==> !Reaches(top[j], top[i])
      ensures top[i] !in Before(i) && Before(i) + [top[i]] <= Discovered()
    {
      assert forall j :: 0 <= j < i ==> top[j] != top[i];
      hide Ok, Uses, Reaches;
      if top[i] in Before(i) { var b := DiscoveredFromSome(top[..i], [], top[i]); }
      assert top == top[..i] + top[i..];
      DiscoverOn(top[..i], top[i..], []);
      DiscoverIs(top[i], Before(i));
      assert DiscoverAll(top[i..], Before(i)) == DiscoverAll(top[i..][1..], Discover(top[i..][0], Before(i)));
    }

    /** A message that no message before it in the file reaches is reached before all others of its cycles. */
    lemma FirstOfItsCycles(i: nat, p: seq<nat>, k: nat)
      requires Ok() && i < |top| && forall j :: 0 <= j < i ==> !Reaches(top[j], top[i])
      requires Path(p) && p[0] == p[|p| - 1] == top[i] && k < |p| && p[k] != top[i]
      ensures Precedes(Discovered(), top[i], p[k])
    {
      hide Ok, Reaches, Top;
      assert Uses(p[k - 1], p[k]);
      hide Uses;
      ReachedNext(i);
      var n := |Before(i)|;
      assert Discovered()[n] == top[i] by { assert (Before(i) + [top[i]])[n] == top[i]; }
      PathReaches(p, k);
      if p[k] in Before(i) {
        var b := DiscoveredFromSome(top[..i], [], p[k]);
        if b != p[k] { ReachesTrans(b, p[k], top[i]); }
      }
      var j :| 0 <= j < |Discovered()| && Discovered()[j] == p[k];
    }

    /** What is in the first part of a sequence and not in it comes before what is only in the rest. */
    lemma InPrefix(a: seq<nat>, s: seq<nat>, x: nat, y: nat)
      requires a <= s && x in a && y !in a && y in s
      ensures Precedes(s, x, y)
    {
      var i :| 0 <= i < |a| && a[i] == x;
      var j :| 0 <= j < |s| && s[j] == y;
      assert s[i] == x && s[..|a|] == a;
    }

    /** Of two messages the one that is first in the file is reached first, if neither it nor one before it needs the
        other. */
    lemma FileOrderKept(i: nat, j: nat)
      requires Ok() && i < j < |top| && forall k :: 0 <= k <= i ==> !Reaches(top[k], top[j])
      ensures Precedes(Discovered(), top[i], top[j])
    {
      hide Uses, Reaches, Discover, DiscoverAll;
      TopsDiffer(i, j);
      DiscoveredIs();
      var part := UsesUpTo(top, [], i);
      hide Ok;
      if top[j] in part {
        var b := DiscoveredFromSome(top[..i + 1], [], top[j]);
      }
      InPrefix(part, Discovered(), top[i], top[j]);
    }

    lemma TopsDiffer(i: nat, j: nat)
      requires Ok() && i < j < |top|
      ensures forall k :: 0 <= k <= i ==> top[k] != top[j]
    {
    }

    // ---- The walk over the messages declared in a message is a walk over a tree ----

    /** Messages of this file, none before `low`. */
    ghost predicate Known(list: seq<nat>, low: nat) {
      forall i {:trigger list[i]} :: 0 <= i < |list| ==> low <= list[i] < |messages|
    }

    /** A message and those declared in it: the last one declared in it first, with all that is declared in that. */
    ghost function Tree(d: nat): (r: seq<nat>)
      requires Ok() && d < |messages|
      ensures Known(r, 0)
      decreases |messages| - d, 0
    {
      assert MessageOk(d);
      [d] + TreesBack(messages[d].nested, d + 1)
    }

    /** The trees of some messages, from the last to the first. */
    ghost function TreesBack(list: seq<nat>, low: nat): (r: seq<nat>)
      requires Ok() && Known(list, low)
      ensures Known(r, 0)
      decreases |messages| - low, |list| + 1
    {
      if list == [] then [] else Tree(list[|list| - 1]) + TreesBack(list[..|list| - 1], low)
    }

    lemma {:induction false} TreesLow(list: seq<nat>, a: nat, b: nat)
      requires Ok() && Known(list, a) && Known(list, b)
      ensures TreesBack(list, a) == TreesBack(list, b)
      decreases |list|
    {
      hide Ok, Tree;
      if list != [] { TreesLow(list[..|list| - 1], a, b); }
    }

    lemma {:induction false} TreesJoin(a: seq<nat>, b: seq<nat>, low: nat)
      requires Ok() && Known(a, low) && Known(b, low)
      ensures Known(a + b, low) && TreesBack(a + b, low) == TreesBack(b, low) + TreesBack(a, low)
      decreases |b|
    {
      hide Ok, Tree;
      if b == [] {
        assert a + b == a;
      } else {
        var n := |b| - 1;
        assert (a + b)[..|a + b| - 1] == a + b[..n];
        TreesJoin(a, b[..n], low);
        Joined(Tree(b[n]), TreesBack(b[..n], low), TreesBack(a, low));
      }
    }

    lemma Joined(x: seq<nat>, y: seq<nat>, z: seq<nat>)
      ensures x + (y + z) == x + y + z
    {
    }

    /** The other top-level messages that the first n fields of d need. */
    ghost function Named(d: nat, n: nat, m: nat): (r: seq<nat>)
      requires Ok() && d < |messages| && n <= |messages[d].fields|
    {
      if n == 0 then []
      else
        var field := messages[d].fields[n - 1];
        var before := Named(d, n - 1, m);
        if field.Message? && field.d < |messages| && Top(field.d) != m then before + [Top(field.d)] else before
    }

    /** The same of some messages, one after the other. */
    ghost function NamedIn(list: seq<nat>, m: nat): seq<nat>
      requires Ok() && Known(list, 0)
    {
      if list == [] then [] else Named(list[0], |messages[list[0]].fields|, m) + NamedIn(list[1..], m)
    }

    lemma {:induction false} NamedIsUsed(d: nat, n: nat, m: nat)
      requires Ok() && d < |messages| && n <= |messages[d].fields|
      ensures Named(d, n, m) + Used(d, n, m) == Used(d, 0, m)
      decreases n
    {
      hide Ok, Top, Named, Used, UsedBy;
      NamedStep(d, n, m);
      if n == 0 {
        assert [] + Used(d, 0, m) == Used(d, 0, m);
      } else {
        NamedIsUsed(d, n - 1, m);
        UsedOn(d, n - 1, m);
        Joined(Named(d, n - 1, m), UsedBy(messages[d].fields[n - 1], m), Used(d, n, m));
      }
    }

    lemma NamedStep(d: nat, n: nat, m: nat)
      requires Ok() && d < |messages| && n <= |messages[d].fields|
      ensures Named(d, n, m) == if n == 0 then [] else Named(d, n - 1, m) + UsedBy(messages[d].fields[n - 1], m)
    {
      hide Ok, Top;
    }

    lemma AllNamed(d: nat, m: nat)
      requires Ok() && d < |messages|
      ensures Named(d, |messages[d].fields|, m) == Used(d, 0, m)
    {
      hide Ok, Named, Top;
      NamedIsUsed(d, |messages[d].fields|, m);
    }

    lemma {:induction false} NamedJoin(a: seq<nat>, b: seq<nat>, m: nat)
      requires Ok() && Known(a, 0) && Known(b, 0)
      ensures Known(a + b, 0) && NamedIn(a + b, m) == NamedIn(a, m) + NamedIn(b, m)
      decreases |a|
    {
      hide Ok, Named, NamedIn;
      if a == [] {
        NoneNamed(m);
        assert a + b == b;
      } else {
        assert (a + b)[1..] == a[1..] + b;
        NamedOn(a, m);
        NamedOn(a + b, m);
        NamedJoin(a[1..], b, m);
        Joined(Named(a[0], |messages[a[0]].fields|, m), NamedIn(a[1..], m), NamedIn(b, m));
      }
    }

    lemma NoneNamed(m: nat)
      requires Ok()
      ensures Known([], 0) && NamedIn([], m) == []
    {
    }

    lemma NamedOn(list: seq<nat>, m: nat)
      requires Ok() && Known(list, 0) && list != []
      ensures Known(list[1..], 0)
      ensures NamedIn(list, m) == Named(list[0], |messages[list[0]].fields|, m) + NamedIn(list[1..], m)
    {
    }

    /** The messages still to be walked over are the roots of the trees that are left. */
    lemma {:induction false} WalkIsTrees(m: nat, pending: seq<nat>, done: set<nat>)
      requires Ok() && Walk(m, pending, done)
      ensures Known(pending, 0) && UsedFrom(m, pending, done) == NamedIn(TreesBack(pending, 0), m)
      decreases Numbers(|messages|) - done
    {
      PendingAre(m, pending, done);
      hide Ok, Walk, Used, Named, Tree, Top, TreesBack, NamedIn, Known;
      if pending == [] {
        NoTrees(m);
      } else {
        WalkOn(m, pending, done);
        var n := |pending| - 1;
        var d := pending[n];
        PendingAre(m, Next(pending), done + {d});
        WalkIsTrees(m, Next(pending), done + {d});
        TreesOn(pending, m);
      }
    }

    lemma NoTrees(m: nat)
      requires Ok()
      ensures Known([], 0) && NamedIn(TreesBack([], 0), m) == []
    {
    }

    /** The last tree is its root and then the trees of what is declared in it. */
    lemma TreesOn(pending: seq<nat>, m: nat)
      requires Ok() && Known(pending, 0) && pending != []
      ensures var d := pending[|pending| - 1];
        && d < |messages| && Known(Next(pending), 0)
        && NamedIn(TreesBack(pending, 0), m) == Used(d, 0, m) + NamedIn(TreesBack(Next(pending), 0), m)
    {
      hide Ok, Used, Named, Top;
      var n := |pending| - 1;
      var d := pending[n];
      NestedAre(d);
      TreesJoin(pending[..n], messages[d].nested, 0);
      TreesLow(messages[d].nested, 0, d + 1);
      Joined([d], TreesBack(messages[d].nested, 0), TreesBack(pending[..n], 0));
      NamedJoin([d], TreesBack(Next(pending), 0), m);
      NamedOfOne(d, m);
      AllNamed(d, m);
    }

    lemma PendingAre(m: nat, pending: seq<nat>, done: set<nat>)
      requires Ok() && Walk(m, pending, done)
      ensures Known(pending, 0)
    {
    }

    lemma NestedAre(d: nat)
      requires Ok() && d < |messages|
      ensures Known(messages[d].nested, d + 1) && Known(messages[d].nested, 0)
    {
      assert MessageOk(d);
    }

    lemma NamedOfOne(d: nat, m: nat)
      requires Ok() && d < |messages|
      ensures Known([d], 0) && NamedIn([d], m) == Named(d, |messages[d].fields|, m)
    {
      assert NamedIn([d][1..], m) == [];
    }

    /** What m uses is what the fields of it and of the messages declared in it name, tree by tree. */
    lemma UseListIsTree(m: nat)
      requires Ok() && m in top
      ensures m < |messages| && UseList(m) == NamedIn(Tree(m), m)
    {
      hide Named, Tree, Top, UsedFrom;
      WalkStarts(m);
      WalkIsTrees(m, [m], {});
      OneTree(m);
    }

    lemma OneTree(m: nat)
      requires Ok() && m < |messages|
      ensures Known([m], 0) && TreesBack([m], 0) == Tree(m)
    {
      hide Ok, Tree;
      assert [m][..0] == [];
      assert TreesBack([m][..0], 0) == [];
    }

    /** Of two messages that m uses the one named first is reached first, if nothing before the other needs it. */
    lemma UseOrderKept(i: nat, a: nat, b: nat)
      requires Ok() && i < |top| && top[i] < |messages|
      requires a < b < |NamedIn(Tree(top[i]), top[i])|
      requires forall k :: 0 <= k < i ==> !Reaches(top[k], top[i])
      requires var uses := NamedIn(Tree(top[i]), top[i]);
        && (forall k :: 0 <= k < i ==> top[k] != uses[b] && !Reaches(top[k], uses[b]))
        && (forall c :: 0 <= c <= a ==> uses[c] != uses[b] && !Reaches(uses[c], uses[b]))
      ensures var uses := NamedIn(Tree(top[i]), top[i]); Precedes(Discovered(), uses[a], uses[b])
    {
      hide Uses, Reaches, Tree, NamedIn, UseList, Discover, Known;
      var m := top[i];
      UseListIsTree(m);
      ReachedNext(i);
      NotItself(m, b);
      BeforeOn(i);
      DiscoverIs(m, Before(i));
      hide Ok;
      var uses, seen := UseList(m), Before(i) + [m];
      var part := UsesUpTo(uses, seen, a);
      if uses[b] in Before(i) { var c := DiscoveredFromSome(top[..i], [], uses[b]); }
      if uses[b] in part { var c := DiscoveredFromSome(uses[..a + 1], seen, uses[b]); }
      InPrefix(part, Discovered(), uses[a], uses[b]);
    }

    lemma UsesUpTo(uses: seq<nat>, seen: seq<nat>, a: nat) returns (part: seq<nat>)
      requires Ok() && a < |uses| && forall x :: x in uses ==> x in top
      ensures (forall x :: x in uses[..a + 1] ==> x in top) && part == DiscoverAll(uses[..a + 1], seen)
      ensures part <= DiscoverAll(uses, seen) && uses[a] in part
    {
      hide Ok, Discover;
      assert uses == uses[..a + 1] + uses[a + 1..];
      DiscoverOn(uses[..a + 1], uses[a + 1..], seen);
      part := DiscoverAll(uses[..a + 1], seen);
      assert uses[a] in uses[..a + 1];
    }

    lemma NotItself(m: nat, b: nat)
      requires Ok() && m in top && b < |UseList(m)|
      ensures UseList(m)[b] != m && UseList(m)[b] in top
    {
      hide Ok, Uses;
      WalkStarts(m);
      UsedFromAreUses(m, [m], {}, UseList(m)[b]);
      UseIsOther(m, UseList(m)[b]);
    }

    lemma UseIsOther(a: nat, b: nat)
      requires Ok() && Uses(a, b)
      ensures a != b
    {
    }

    /** What is reached once top message i has been is reached first of all. */
    lemma BeforeOn(i: nat)
      requires Ok() && i < |top|
      ensures Discover(top[i], Before(i)) <= Discovered() && forall x :: x in top ==> x in Discovered()
    {
      hide Ok, Discover;
      assert top == top[..i] + top[i..];
      DiscoverOn(top[..i], top[i..], []);
      assert DiscoverAll(top[i..], Before(i)) == DiscoverAll(top[i..][1..], Discover(top[i..][0], Before(i)));
    }

    lemma PathReaches(p: seq<nat>, k: nat)
      requires Ok() && Path(p) && k < |p| - 1
      ensures Reaches(p[k], p[|p| - 1])
    {
      hide Ok, Uses;
      var q := p[k..];
      forall i {:trigger q[i]} | 0 <= i < |q| - 1 ensures Uses(q[i], q[i + 1]) { assert Uses(p[k + i], p[k + i + 1]); }
      assert Path(q);
    }

    /** Each top-level message is reached once. */
    lemma DiscoveredIs()
      requires Ok()
      ensures Distinct(Discovered()) && forall m :: m in Discovered() <==> m in top
    {
      hide Ok;
      DiscoverAllDistinct(top, []);
    }

    lemma {:induction false} DiscoverDistinct(m: nat, seen: seq<nat>)
      requires Ok() && m in top && Distinct(seen) && forall x :: x in seen ==> x in top
      ensures Distinct(Discover(m, seen)) && forall x :: x in Discover(m, seen) ==> x in top
      decreases Unseen(seen), 0, 0
    {
      hide Ok;
      DiscoverIs(m, seen);
      if m !in seen {
        assert m in Unseen(seen);
        DiscoverAllDistinct(UseList(m), seen + [m]);
      }
    }

    lemma {:induction false} DiscoverAllDistinct(list: seq<nat>, seen: seq<nat>)
      requires Ok() && (forall b :: b in list ==> b in top) && Distinct(seen) && forall x :: x in seen ==> x in top
      ensures Distinct(DiscoverAll(list, seen)) && forall x :: x in DiscoverAll(list, seen) ==> x in top
      decreases Unseen(seen), 1, |list|
    {
      hide Ok, Discover;
      if list != [] {
        DiscoverDistinct(list[0], seen);
        DiscoverAllDistinct(list[1..], Discover(list[0], seen));
      }
    }
  }

  function Numbers(n: nat): (r: set<nat>)
    ensures forall d: nat :: d in r <==> d < n
  {
    if n == 0 then {} else Numbers(n - 1) + {n - 1}
  }

  /** The messages reached and the order at some moment, and when each message was reached and put in the order. */
  datatype Moment = Moment(visited: set<nat>, order: seq<nat>, enter: map<nat, nat>, leave: map<nat, nat>, clock: nat)

  /** Nothing reached before `a` has changed by `b`, and everything reached since is in the order. */
  ghost predicate After(a: Moment, b: Moment) {
    && a.visited <= b.visited && a.order <= b.order && a.clock <= b.clock
    && (forall x {:trigger a.enter[x]} {:trigger b.enter[x]} ::
      x in a.enter
      ==> x in b.enter && b.enter[x] == a.enter[x])
    && (forall x {:trigger a.leave[x]} {:trigger b.leave[x]} ::
      x in a.leave
      ==> x in b.leave && b.leave[x] == a.leave[x])
    && (forall x {:trigger b.enter[x]} {:trigger x in b.visited} ::
      x in b.visited && x !in a.visited
      ==> x in b.leave && x in b.enter && a.clock <= b.enter[x])
  }

  // ---- What holds of the visits at every moment ----

  /** The messages reached are those in `active`, whose visits have not ended, and those in the order. */
  ghost predicate Sets(file: File, t: Moment, active: set<nat>) {
    && t.enter.Keys == t.visited && t.leave.Keys == (set x | x in t.order)
    && (forall x :: x in t.visited <==> x in active || x in t.leave) && (forall x :: x in active ==> x !in t.leave)
    && (forall x :: x in t.visited ==> x in file.top)
    && file.Distinct(t.order)
  }

  ghost predicate Times(t: Moment) {
    && (forall x :: x in t.enter ==> t.enter[x] < t.clock)
    && (forall x, y {:trigger t.enter[x], t.enter[y]} ::
      x in t.enter && y in t.enter && x != y
      ==> t.enter[x] != t.enter[y])
    && (forall x :: x in t.leave ==> x in t.enter && t.enter[x] < t.leave[x] < t.clock)
    && (forall x :: x in t.order ==> x in t.leave)
    && (forall i, j {:trigger t.order[i], t.order[j]} ::
      0 <= i < j < |t.order|
      ==> t.leave[t.order[i]] < t.leave[t.order[j]])
  }

  /** A visit that began during another has ended before it. */
  ghost predicate Within(t: Moment, x: nat, y: nat) {
    x in t.leave && x in t.enter && y in t.enter && t.enter[x] < t.enter[y] ==>
    t.leave[x] < t.enter[y] || (y in t.leave && t.leave[y] < t.leave[x])
  }

  /** What a uses was finished before it, or was being visited when a was and so needs a itself. */
  ghost predicate Edge(file: File, t: Moment, a: nat, b: nat)
    requires file.Ok()
  {
    a in t.leave && a in t.enter && file.Uses(a, b) ==>
      || (b in t.leave && t.leave[b] < t.leave[a])
      || (b in t.enter && t.enter[b] < t.enter[a] && file.Reaches(b, a) && (b in t.leave ==> t.leave[a] < t.leave[b]))
  }

  /** What is reached while x is being visited is reached from x. */
  ghost predicate During(file: File, t: Moment, x: nat, y: nat)
    requires file.Ok()
  {
    x in t.enter && y in t.enter && t.enter[x] < t.enter[y] && (x in t.leave ==> t.enter[y] < t.leave[x])
    ==> file.Reaches(x, y)
  }

  ghost predicate Good(file: File, t: Moment, active: set<nat>)
    requires file.Ok()
  {
    && Sets(file, t, active) && Times(t)
    && (forall x, y {:trigger Within(t, x, y)} :: Within(t, x, y))
    && (forall a, b {:trigger Edge(file, t, a, b)} :: Edge(file, t, a, b))
    && (forall x, y {:trigger During(file, t, x, y)} :: During(file, t, x, y))
  }

  lemma EnterTimes(file: File, a: Moment, active: set<nat>)
    requires file.Ok() && Good(file, a, active)
    ensures forall x :: x in a.enter ==> a.enter[x] < a.clock
  {
  }

  lemma EnterIsGood(file: File, a: Moment, m: nat, active: set<nat>)
    requires file.Ok() && Good(file, a, active) && m in file.top && m !in a.visited
    requires forall x :: x in active ==> file.Reaches(x, m)
    ensures Good(file, Moment(a.visited + {m}, a.order, a.enter[m := a.clock], a.leave, a.clock + 1), active + {m})
  {
    hide File.Ok, File.Uses, File.Reaches;
    var t := Moment(a.visited + {m}, a.order, a.enter[m := a.clock], a.leave, a.clock + 1);
    forall x, y ensures Within(t, x, y) { assert Within(a, x, y); }
    forall x, y ensures Edge(file, t, x, y) { assert Edge(file, a, x, y); }
    forall x, y ensures During(file, t, x, y) { assert During(file, a, x, y); }
  }

  /** The messages reached, in the order they were. */
  ghost predicate Timely(t: Moment, found: seq<nat>) {
    && (forall x :: x in found <==> x in t.visited) && (forall x :: x in found ==> x in t.enter)
    && forall i, j {:trigger found[i], found[j]} :: 0 <= i < j < |found| ==> t.enter[found[i]] < t.enter[found[j]]
  }

  lemma TimelyOn(a: Moment, found: seq<nat>, m: nat)
    requires Timely(a, found) && m !in a.visited && forall x :: x in a.enter ==> a.enter[x] < a.clock
    ensures Timely(Moment(a.visited + {m}, a.order, a.enter[m := a.clock], a.leave, a.clock + 1), found + [m])
  {
    assert forall i :: 0 <= i < |found| ==> found[i] in found;
  }

  function Left(a: Moment, m: nat): Moment {
    a.(order := a.order + [m], leave := a.leave[m := a.clock], clock := a.clock + 1)
  }

  lemma LeaveIsGood(file: File, a: Moment, m: nat, active: set<nat>)
    requires file.Ok() && Good(file, a, active + {m}) && m !in active && m in file.top && m in a.enter && m !in a.leave
    requires forall b :: file.Uses(m, b) ==> b in a.visited
    requires forall x :: x in active ==> file.Reaches(x, m) && x in a.enter && a.enter[x] < a.enter[m]
    requires forall y :: y in a.visited && y in a.enter && a.enter[m] < a.enter[y] ==> y in a.leave
    ensures Good(file, Left(a, m), active)
  {
    hide File.Ok, File.Uses, File.Reaches, Times, File.Distinct;
    LeaveSets(file, a, m, active);
    LeaveTimes(file, a, m);
    LeaveWithin(file, a, m, active);
    LeaveEdges(file, a, m, active);
    LeaveDuring(file, a, m, active);
  }

  lemma LeaveDuring(file: File, a: Moment, m: nat, active: set<nat>)
    requires file.Ok() && Good(file, a, active + {m}) && m in a.enter && m !in a.leave
    ensures forall x, y {:trigger During(file, Left(a, m), x, y)} :: During(file, Left(a, m), x, y)
  {
    hide File.Ok, File.Uses, File.Reaches, File.Distinct, Within, Edge;
    forall x, y ensures During(file, Left(a, m), x, y) { assert During(file, a, x, y); }
  }

  lemma LeaveSets(file: File, a: Moment, m: nat, active: set<nat>)
    requires Sets(file, a, active + {m}) && m !in active && m !in a.leave
    ensures Sets(file, Left(a, m), active)
  {
    var t := Left(a, m);
    assert m !in a.order;
    assert forall x :: x in t.order <==> x in a.order || x == m;
  }

  lemma LeaveTimes(file: File, a: Moment, m: nat)
    requires Times(a) && m in a.enter && m !in a.order
    ensures Times(Left(a, m))
  {
    var t := Left(a, m);
    var n := |a.order|;
    assert forall i :: 0 <= i < n ==> t.order[i] == a.order[i] && a.order[i] in a.order;
  }

  lemma LeaveWithin(file: File, a: Moment, m: nat, active: set<nat>)
    requires Sets(file, a, active + {m}) && Times(a) && m !in active && m in a.enter && m !in a.leave
    requires forall x, y {:trigger Within(a, x, y)} :: Within(a, x, y)
    requires forall y :: y in a.visited && y in a.enter && a.enter[m] < a.enter[y] ==> y in a.leave
    ensures forall x, y {:trigger Within(Left(a, m), x, y)} :: Within(Left(a, m), x, y)
  {
    forall x, y ensures Within(Left(a, m), x, y) { assert Within(a, x, y); }
  }

  lemma LeaveEdges(file: File, a: Moment, m: nat, active: set<nat>)
    requires file.Ok() && Good(file, a, active + {m}) && m !in active && m in a.enter && m !in a.leave
    requires forall b :: file.Uses(m, b) ==> b in a.visited
    requires forall x :: x in active ==> file.Reaches(x, m) && x in a.enter && a.enter[x] < a.enter[m]
    ensures forall x, y {:trigger Edge(file, Left(a, m), x, y)} :: Edge(file, Left(a, m), x, y)
  {
    hide File.Ok, File.Uses, File.Reaches, File.Distinct, Within;
    UsesOthers(file, m);
    forall x, y ensures Edge(file, Left(a, m), x, y) { assert Edge(file, a, x, y); }
  }

  lemma UsesOthers(file: File, m: nat)
    requires file.Ok()
    ensures !file.Uses(m, m)
  {
  }

  /** The state of the visits: the messages reached, those finished in order, and when each was reached and finished. */
  class Visits {
    const file: File
    var visited: set<nat>
    var order: seq<nat>
    ghost var enter: map<nat, nat>
    ghost var leave: map<nat, nat>
    ghost var clock: nat
    ghost var found: seq<nat>

    constructor (file: File)
      requires file.Ok()
      ensures this.file == file && Valid({}) && order == [] && visited == {} && found == []
    {
      this.file := file;
      visited, order := {}, [];
      enter, leave, clock, found := map[], map[], 0, [];
    }

    ghost predicate Valid(active: set<nat>)
      reads this
    {
      file.Ok() && Good(file, Now(), active) && Timely(Now(), found)
    }

    ghost function Now(): Moment
      reads this
    {
      Moment(visited, order, enter, leave, clock)
    }

    /** Marks m as reached. */
    method Enter(m: nat, ghost active: set<nat>)
      requires Valid(active) && m in file.top && m !in visited
      requires forall x :: x in active ==> file.Reaches(x, m)
      modifies this
      ensures Valid(active + {m}) && visited == old(visited) + {m} && order == old(order)
      ensures enter == old(enter)[m := old(clock)] && leave == old(leave) && clock == old(clock) + 1
      ensures found == old(found) + [m]
    {
      hide File.Ok, Good, Timely, File.Reaches;
      ghost var a := Now();
      EnterTimes(file, a, active);
      TimelyOn(a, found, m);
      found := found + [m];
      visited := visited + {m};
      enter := enter[m := clock];
      clock := clock + 1;
      EnterIsGood(file, a, m, active);
    }

    /** Puts m next in the order, everything it uses having been reached. */
    method Leave(m: nat, ghost active: set<nat>, ghost since: nat)
      requires Valid(active + {m}) && m !in active && m in file.top && m in enter && m !in leave && since == enter[m]
      requires forall b :: file.Uses(m, b) ==> b in visited
      requires forall x :: x in active ==> file.Reaches(x, m) && x in enter && enter[x] < since
      requires forall y :: y in visited && y in enter && since < enter[y] ==> y in leave
      modifies this
      ensures Valid(active) && visited == old(visited) && order == old(order) + [m]
      ensures enter == old(enter) && leave == old(leave)[m := old(clock)] && clock == old(clock) + 1
      ensures found == old(found)
    {
      hide File.Ok, File.Uses, File.Reaches, Good;
      ghost var a := Now();
      order := order + [m];
      leave := leave[m := clock];
      clock := clock + 1;
      LeaveIsGood(file, a, m, active);
    }

    /** Everything m uses is among `seen`. */
    ghost predicate UsesOnly(m: nat, seen: set<nat>)
      requires file.Ok()
    {
      forall b :: file.Uses(m, b) ==> b in seen
    }

    ghost function Unreached(): set<nat>
      reads this
    {
      (set x | x in file.top) - visited
    }

    /** The top-level message d is declared in. */
    method TopOf(d: nat) returns (top: nat)
      requires file.Ok() && d < |file.messages|
      ensures top == file.Top(d)
    {
      top := d;
      while file.messages[top].container.Some?
        invariant top < |file.messages| && file.Top(top) == file.Top(d)
        decreases top
      {
        assert file.MessageOk(top);
        top := file.messages[top].container.value;
      }
    }

    /** Visits what field i of d uses; d is m or declared in it. */
    method VisitField(d: nat, i: nat, m: nat, ghost active: set<nat>)
      requires file.Ok() && Valid(active) && d < |file.messages| && i < |file.messages[d].fields| && file.Top(d) == m
      requires m in active
      requires forall x :: x in active ==> x == m || file.Reaches(x, m)
      modifies this
      ensures Valid(active) && After(old(Now()), Now()) && Reached(file.messages[d].fields[i], m, visited)
      ensures found == file.DiscoverAll(file.UsedBy(file.messages[d].fields[i], m), old(found))
      ensures UsesOnly(m, old(visited)) ==> order == old(order) && visited == old(visited)
      decreases Unreached(), 2
    {
      hide Valid, File.Ok, File.Reaches, File.Uses, File.Top;
      var field := file.messages[d].fields[i];
      if field.Message? {
        FieldIn(d, i);
        var used := TopOf(field.d);
        if used != m {
          UsedIs(m, d, field.d);
          forall x | x in active ensures x == used || file.Reaches(x, used) {
            if x == m { file.UseReaches(m, used); } else { file.ReachesOn(x, m, used); }
          }
          Visit(used, active);
        }
      }
    }

    /** The message a field of m uses, if it is another one, has been reached. */
    ghost predicate Reached(field: FieldType, m: nat, seen: set<nat>)
      requires file.Ok()
    {
      field.Message? && field.d < |file.messages| && file.Top(field.d) != m ==> file.Top(field.d) in seen
    }

    lemma FieldIn(d: nat, i: nat)
      requires file.Ok() && d < |file.messages| && i < |file.messages[d].fields| && file.messages[d].fields[i].Message?
      ensures file.messages[d].fields[i].d < |file.messages| && file.Names(d, file.messages[d].fields[i].d)
      ensures file.Top(file.messages[d].fields[i].d) in file.top
    {
      assert file.MessageOk(d);
    }

    /** Visits the messages that fields of d use; d is m or declared in it. */
    method VisitFields(d: nat, m: nat, ghost active: set<nat>)
      requires file.Ok() && Valid(active) && d < |file.messages| && file.Top(d) == m && m in active
      requires forall x :: x in active ==> x == m || file.Reaches(x, m)
      modifies this
      ensures Valid(active) && After(old(Now()), Now()) && FieldsReached(d, m, visited)
      ensures found == file.DiscoverAll(file.Used(d, 0, m), old(found))
      ensures UsesOnly(m, old(visited)) ==> order == old(order) && visited == old(visited)
      decreases Unreached(), 3
    {
      hide Valid, File.Ok, File.Reaches, File.Uses, File.Top, File.Used, File.UsedBy, File.DiscoverAll;
      var i := 0;
      while i < |file.messages[d].fields|
        invariant 0 <= i <= |file.messages[d].fields|
        invariant Valid(active) && After(old(Now()), Now())
        invariant forall k :: 0 <= k < i ==> Reached(file.messages[d].fields[k], m, visited)
        invariant file.DiscoverAll(file.Used(d, i, m), found) == file.DiscoverAll(file.Used(d, 0, m), old(found))
        invariant UsesOnly(m, old(visited)) ==> order == old(order) && visited == old(visited)
      {
        ghost var before := found;
        file.UsedOn(d, i, m);
        VisitField(d, i, m, active);
        file.DiscoverOn(file.UsedBy(file.messages[d].fields[i], m), file.Used(d, i + 1, m), before);
        i := i + 1;
      }
      file.NoneUsed(d, m, found);
    }

    ghost predicate FieldsReached(d: nat, m: nat, seen: set<nat>)
      requires file.Ok() && d < |file.messages|
    {
      forall k :: 0 <= k < |file.messages[d].fields| ==> Reached(file.messages[d].fields[k], m, seen)
    }

    lemma UsedIs(m: nat, d: nat, x: nat)
      requires file.Ok() && d < |file.messages| && x < |file.messages| && file.Top(d) == m && file.Names(d, x)
      requires file.Top(x) != m
      ensures file.Uses(m, file.Top(x)) && file.Top(x) in file.top
    {
    }

    /** What the fields of the messages that are done need has been reached. */
    ghost predicate DoneReached(done: set<nat>, m: nat, seen: set<nat>)
      requires file.Ok()
    {
      forall e :: e in done ==> e < |file.messages| && FieldsReached(e, m, seen)
    }

    /** Visits what the last of the pending messages uses. */
    method VisitLast(m: nat, pending: seq<nat>, ghost done: set<nat>, ghost active: set<nat>)
      requires file.Ok() && Valid(active) && m in active && pending != []
      requires var d := pending[|pending| - 1]; d < |file.messages| && file.Top(d) == m
      requires forall x :: x in active ==> x == m || file.Reaches(x, m)
      requires DoneReached(done, m, visited)
      modifies this
      ensures Valid(active) && After(old(Now()), Now())
      ensures DoneReached(done + {pending[|pending| - 1]}, m, visited)
      ensures found == file.DiscoverAll(file.Used(pending[|pending| - 1], 0, m), old(found))
      ensures UsesOnly(m, old(visited)) ==> order == old(order) && visited == old(visited)
      decreases Unreached(), 4
    {
      hide Valid, File.Ok, File.Reaches, File.Uses, File.Top, FieldsReached;
      ghost var seen := visited;
      VisitFields(pending[|pending| - 1], m, active);
      forall e | e in done ensures FieldsReached(e, m, visited) { StillReached(e, m, seen, visited); }
    }

    /** Visits what the messages declared in m, which has just been reached, use. */
    method VisitNested(m: nat, ghost active: set<nat>)
      requires file.Ok() && Valid(active) && m in active && m in file.top
      requires forall x :: x in active ==> x == m || file.Reaches(x, m)
      modifies this
      ensures Valid(active) && After(old(Now()), Now()) && forall b :: file.Uses(m, b) ==> b in visited
      ensures found == file.DiscoverAll(file.UseList(m), old(found))
      ensures UsesOnly(m, old(visited)) ==> order == old(order) && visited == old(visited)
      decreases Unreached(), 5
    {
      hide Valid, File.Ok, File.Reaches, File.Uses, File.Top, File.Walk, FieldsReached;
      file.WalkStarts(m);
      var pending := [m];
      ghost var done: set<nat> := {};
      while pending != []
        invariant Valid(active) && After(old(Now()), Now()) && file.Walk(m, pending, done)
        invariant DoneReached(done, m, visited)
        invariant file.DiscoverAll(file.UsedFrom(m, pending, done), found)
            == file.DiscoverAll(file.UseList(m), old(found))
        invariant UsesOnly(m, old(visited)) ==> order == old(order) && visited == old(visited)
        decreases Numbers(|file.messages|) - done
      {
        file.WalkOn(m, pending, done);
        ghost var before, d := found, pending[|pending| - 1];
        VisitLast(m, pending, done, active);
        file.DiscoverOn(file.Used(d, 0, m), file.UsedFrom(m, file.Next(pending), done + {d}), before);
        done := done + {pending[|pending| - 1]};
        pending := pending[..|pending| - 1] + file.messages[pending[|pending| - 1]].nested;
      }
      AllReached(m, done);
    }

    lemma StillReached(d: nat, m: nat, seen: set<nat>, now: set<nat>)
      requires file.Ok() && d < |file.messages| && FieldsReached(d, m, seen) && seen <= now
      ensures FieldsReached(d, m, now)
    {
      forall k | 0 <= k < |file.messages[d].fields| ensures Reached(file.messages[d].fields[k], m, now) {
        assert Reached(file.messages[d].fields[k], m, seen);
      }
    }

    lemma AllReached(m: nat, done: set<nat>)
      requires file.Ok() && file.Walk(m, [], done) && DoneReached(done, m, visited)
      ensures forall b :: file.Uses(m, b) ==> b in visited
    {
      hide File.Ok, File.Top, File.Walk;
      forall b | file.Uses(m, b) ensures b in visited {
        var d: nat, x: nat :| d < |file.messages| && x < |file.messages| && file.Top(d) == m && file.Names(d, x)
          && file.Top(x) == b;
        file.AllDone(m, done, d);
        var k :| 0 <= k < |file.messages[d].fields| && file.messages[d].fields[k] == Message(x);
        assert Reached(file.messages[d].fields[k], m, visited);
      }
    }

    /** Visits m and, before putting it in the order, what it and the messages declared in it use. */
    method Visit(m: nat, ghost active: set<nat>)
      requires file.Ok() && Valid(active) && m in file.top
      requires forall x :: x in active ==> x == m || file.Reaches(x, m)
      modifies this
      ensures Valid(active) && After(old(Now()), Now()) && m in visited
      ensures m in old(visited) || UsesOnly(m, old(visited))
          ==> order == old(order) + (if m in old(visited) then [] else [m])
      ensures found == file.Discover(m, old(found))
      ensures m in old(visited) ==> visited == old(visited)
      decreases Unreached(), 1
    {
      hide File.Ok, File.Reaches, File.Uses, Valid, After;
      ghost var a := Now();
      AfterNothing(a);
      ActiveBefore(active);
      file.DiscoverIs(m, found);
      if m in visited {
        return;
      }
      assert m in Unreached();
      Enter(m, active);
      ghost var b := Now();
      VisitNested(m, active + {m});
      ghost var c := Now();
      Finishing(a, b, c, m, active);
      Leave(m, active, enter[m]);
      Finished(a, b, c, Now(), m);
    }

    /** What Leave() needs to know of the messages reached before m and since. */
    lemma Finishing(a: Moment, b: Moment, c: Moment, m: nat, active: set<nat>)
      requires Valid(active + {m}) && c == Now() && After(b, c) && Reachable(a, active) && m !in a.visited
      requires b.visited == a.visited + {m} && b.enter == a.enter[m := a.clock] && b.clock == a.clock + 1
      requires b.leave == a.leave
      ensures m !in active && m in enter && m !in leave && enter[m] == a.clock && m in c.visited
      ensures forall x :: x in active ==> x in enter && enter[x] < enter[m]
      ensures forall y :: y in visited && enter[m] < enter[y] ==> y in leave
    {
    }

    /** The messages being visited were reached before. */
    ghost predicate Reachable(a: Moment, active: set<nat>) {
      && a.visited == a.enter.Keys
      && (forall x :: x in active ==> x in a.enter)
      && (forall x :: x in a.enter ==> a.enter[x] < a.clock)
    }

    lemma ActiveBefore(active: set<nat>)
      requires Valid(active)
      ensures Reachable(Now(), active) && Now().leave.Keys <= Now().visited && forall x :: x in found <==> x in visited
    {
    }

    // ---- What the finished visits say of the order ----

    /** With every message in the order, an edge goes down in it or leads back to a message it is reached from. */
    lemma OrderOfUse(a: nat, b: nat)
      requires Valid({}) && file.Uses(a, b) && a in leave
      ensures b in leave && (leave[b] < leave[a] || file.Reaches(b, a))
    {
      assert Edge(file, Now(), a, b);
    }

    lemma LeaveIsOrder(a: nat, b: nat)
      requires Valid({}) && a in leave && b in leave && leave[b] < leave[a]
      ensures Precedes(order, b, a)
    {
      var i :| 0 <= i < |order| && order[i] == b;
      var j :| 0 <= j < |order| && order[j] == a;
      assert i < j;
    }

    /** On a path from m of messages reached after it, each was finished before m. */
    lemma {:induction false} FinishedWithin(p: seq<nat>, i: nat)
      requires Valid({}) && file.Path(p) && i < |p| && p[0] in leave
      requires forall k :: 0 <= k < |p| ==> p[k] in enter && enter[p[0]] <= enter[p[k]]
      ensures p[i] in leave && (p[i] == p[0] || leave[p[i]] < leave[p[0]])
    {
      hide File.Ok, File.Uses, File.Reaches;
      if i > 0 {
        FinishedWithin(p, i - 1);
        assert file.Uses(p[i - 1], p[i]);
        assert Edge(file, Now(), p[i - 1], p[i]) && Within(Now(), p[0], p[i]);
      }
    }

    lemma NextInOrder(i: nat)
      requires file.Ok() && Valid({}) && InOrder(file) && i < |file.top| && order == file.top[..i]
      ensures file.top[i] !in visited && UsesOnly(file.top[i], visited)
    {
      forall b | file.Uses(file.top[i], b) ensures b in visited { assert b in file.top[..i]; }
    }

    lemma CycleTimes(p: seq<nat>)
      requires Valid({}) && found == file.Discovered() && CycleFrom(file, p)
      requires (forall m :: m in file.top ==> m in visited)
      ensures p[0] in leave && forall k :: 0 <= k < |p| ==> p[k] in enter && enter[p[0]] <= enter[p[k]]
    {
      hide Within, Edge, File.Ok, File.Discovered;
      assert file.Uses(p[0], p[1]);
    }

    /** What the visits of all messages say of the order. */
    lemma OrderIs()
      requires Valid({}) && found == file.Discovered() && forall m :: m in file.top ==> m in visited
      ensures file.Distinct(order) && forall m :: m in order <==> m in file.top
      ensures Acyclic(file) ==> forall a, b :: file.Uses(a, b) ==> Precedes(order, b, a)
      ensures forall p: seq<nat>, k {:trigger CycleFrom(file, p), p[k]} ::
        CycleFrom(file, p) && 0 <= k < |p| && p[k] != p[0] ==> Precedes(order, p[k], p[0])
      ensures forall x, y {:trigger Precedes(file.Discovered(), x, y)} ::
        Precedes(file.Discovered(), x, y) && !file.Reaches(x, y) ==> Precedes(order, x, y)
    {
      hide Within, Edge, During, File.Ok;
      forall x, y | Precedes(file.Discovered(), x, y) && !file.Reaches(x, y) ensures Precedes(order, x, y) {
        FirstReachedFirst(x, y);
      }
      if Acyclic(file) {
        forall a, b | file.Uses(a, b) ensures Precedes(order, b, a) { UseIsBelow(a, b); }
      }
      forall p: seq<nat>, k | CycleFrom(file, p) && 0 <= k < |p| && p[k] != p[0] ensures Precedes(order, p[k], p[0]) {
        CycleTimes(p);
        FinishedWithin(p, k);
        LeaveIsOrder(p[0], p[k]);
      }
    }

    /** Of two messages the one reached first comes first, if it does not need the other. */
    lemma FirstReachedFirst(x: nat, y: nat)
      requires Valid({}) && found == file.Discovered() && forall m :: m in file.top ==> m in visited
      requires Precedes(file.Discovered(), x, y) && !file.Reaches(x, y)
      ensures Precedes(order, x, y)
    {
      hide Within, Edge, File.Ok, File.Reaches;
      assert During(file, Now(), x, y);
      LeaveIsOrder(y, x);
    }

    lemma UseIsBelow(a: nat, b: nat)
      requires Valid({}) && (forall m :: m in file.top ==> m in visited) && Acyclic(file) && file.Uses(a, b)
      ensures Precedes(order, b, a)
    {
      hide Within, Edge, File.Ok, File.Reaches;
      assert a in file.top;
      OrderOfUse(a, b);
      if file.Reaches(b, a) { NoCycle(a, b); }
      LeaveIsOrder(a, b);
    }

    lemma NoCycle(a: nat, b: nat)
      requires file.Ok() && file.Uses(a, b) && file.Reaches(b, a)
      ensures !Acyclic(file)
    {
      file.ReachesOn(b, a, b);
    }
  }

  lemma AfterNothing(a: Moment)
    ensures After(a, a)
  {
  }

  lemma Finished(a: Moment, b: Moment, c: Moment, d: Moment, m: nat)
    requires After(b, c) && m !in a.visited && a.leave.Keys <= a.visited == a.enter.Keys
    requires b == Moment(a.visited + {m}, a.order, a.enter[m := a.clock], a.leave, a.clock + 1)
    requires d == Moment(c.visited, c.order + [m], c.enter, c.leave[m := c.clock], c.clock + 1)
    requires m !in c.leave
    ensures After(a, d)
  {
  }

  /** b comes before a. */
  ghost predicate Precedes(s: seq<nat>, b: nat, a: nat) {
    exists i, j {:trigger s[i], s[j]} :: 0 <= i < j < |s| && s[i] == b && s[j] == a
  }

  /** No message needs itself. */
  ghost predicate Acyclic(file: File)
    requires file.Ok()
  {
    forall a :: !file.Reaches(a, a)
  }

  /** A cycle of uses whose first message was reached before its others. */
  ghost predicate CycleFrom(file: File, p: seq<nat>)
    requires file.Ok()
  {
    && |p| >= 2 && file.Path(p) && p[|p| - 1] == p[0]
    && forall k {:trigger p[k]} :: 0 <= k < |p| ==> p[k] == p[0] || Precedes(file.Discovered(), p[0], p[k])
  }

  /** Each message uses only messages before it in the file. */
  ghost predicate InOrder(file: File)
    requires file.Ok()
  {
    forall i, b {:trigger file.Uses(file.top[i], b)} :: 0 <= i < |file.top| && file.Uses(file.top[i], b)
      ==> b in file.top[..i]
  }

  lemma Prefixes(file: File)
    requires file.Ok()
    ensures file.top[..0] == [] && file.top[..|file.top|] == file.top
    ensures forall i {:trigger file.top[i]} ::
        0 <= i < |file.top|
        ==> file.top[..i] + [file.top[i]] == file.top[..i + 1]
  {
  }

  /** Every top-level message once, after those it uses; on a cycle of uses the one reached first comes last. */
  method MessagesInDependencyOrder(file: File) returns (order: seq<nat>)
    requires file.Ok()
    ensures file.Distinct(order) && forall m :: m in order <==> m in file.top
    ensures Acyclic(file) ==> forall a, b :: file.Uses(a, b) ==> Precedes(order, b, a)
    ensures forall p: seq<nat>, k {:trigger CycleFrom(file, p), p[k]} ::
      CycleFrom(file, p) && 0 <= k < |p| && p[k] != p[0] ==> Precedes(order, p[k], p[0])
    ensures forall x, y {:trigger Precedes(file.Discovered(), x, y)} ::
      Precedes(file.Discovered(), x, y) && !file.Reaches(x, y) ==> Precedes(order, x, y)
    ensures InOrder(file) ==> order == file.top
  {
    hide File.Ok, Visits.Valid, Acyclic, CycleFrom, InOrder, Precedes, File.Uses, File.Reaches, File.Distinct,
      Visits.UsesOnly, Visits.Unreached;
    var visits := new Visits(file);
    var i := 0;
    Prefixes(file);
    while i < |file.top|
      invariant 0 <= i <= |file.top| && visits.file == file && fresh(visits) && visits.Valid({})
      invariant forall k :: 0 <= k < i ==> file.top[k] in visits.visited
      invariant InOrder(file) ==> visits.order == file.top[..i]
      invariant file.DiscoverAll(file.top[i..], visits.found) == file.Discovered()
    {
      ghost var ordered := InOrder(file);
      if ordered { visits.NextInOrder(i); }
      ghost var before := visits.found;
      visits.Visit(file.top[i], {});
      assert file.top[i..][1..] == file.top[i + 1..] && visits.found == file.Discover(file.top[i..][0], before);
      i := i + 1;
    }
    order := visits.order;
    visits.OrderIs();
  }
}
