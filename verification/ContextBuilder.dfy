/** A list of constructors that is edited while it is being walked: src/jw_util/contextbuilder.h. */
module ContextBuilder {

  /** An entry of the list: the constructor of a type, or what is left of one that was removed. */
  datatype Getter = Getter(typ: nat) | Noop

  /** What happens in a pass. Registrations are numbered in order. */
  datatype Event = Called(serial: nat) | Registered(serial: nat) | Removed(serial: nat)

  /** What a constructor does to the builder while it runs. */
  datatype Action = Register(typ: nat) | Remove(typ: nat)

  /** No type has two entries, and entries are in order of registration; types[s] is what registration s was of. */
  ghost predicate Orderly(getters: seq<Getter>, serials: seq<nat>, types: seq<nat>) {
    && |serials| == |getters|
    && (forall i, j :: 0 <= i < j < |getters| && getters[i].Getter? ==> getters[i] != getters[j])
    && (forall i, j :: 0 <= i < j < |serials| ==> serials[i] < serials[j])
    && (forall i :: 0 <= i < |serials| ==> serials[i] < |types|)
    && (forall i :: 0 <= i < |serials| && getters[i].Getter? ==> types[serials[i]] == getters[i].typ)
  }

  // ---------------------------------------------------------------- what is live

  /** The types registered, without what was removed. */
  function Live(getters: seq<Getter>): seq<nat> {
    if getters == [] then []
    else
      var k := |getters| - 1;
      Live(getters[..k]) + if getters[k].Getter? then [getters[k].typ] else []
  }

  /** Their registrations. */
  ghost function LiveSerials(getters: seq<Getter>, serials: seq<nat>): seq<nat>
    requires |serials| == |getters|
  {
    if getters == [] then []
    else
      var k := |getters| - 1;
      LiveSerials(getters[..k], serials[..k]) + if getters[k].Getter? then [serials[k]] else []
  }

  lemma {:induction false} LiveMembers(getters: seq<Getter>, typ: nat)
    ensures typ in Live(getters) <==> Getter(typ) in getters
  {
    if getters != [] {
      var k := |getters| - 1;
      LiveMembers(getters[..k], typ);
      assert getters == getters[..k] + [getters[k]];
    }
  }

  function CountNoops(getters: seq<Getter>): nat {
    if getters == [] then 0
    else
      var k := |getters| - 1;
      CountNoops(getters[..k]) + if getters[k].Noop? then 1 else 0
  }

  /** The entries that are not noops are counted by the live types, of which there are no two alike. */
  lemma {:induction false} LiveCount(getters: seq<Getter>, serials: seq<nat>, types: seq<nat>)
    requires Orderly(getters, serials, types)
    ensures |Live(getters)| == |getters| - CountNoops(getters)
    ensures forall i, j :: 0 <= i < j < |Live(getters)| ==> Live(getters)[i] != Live(getters)[j]
  {
    if getters != [] {
      var k := |getters| - 1;
      LiveCount(getters[..k], serials[..k], types);
      if getters[k].Getter? {
        LiveMembers(getters[..k], getters[k].typ);
      }
    }
  }

  lemma {:induction false} LiveAppend(getters: seq<Getter>, more: seq<Getter>)
    ensures Live(getters + more) == Live(getters) + Live(more)
  {
    if more == [] {
      assert getters + more == getters;
    } else {
      var k := |more| - 1;
      assert (getters + more)[..|getters| + k] == getters + more[..k];
      LiveAppend(getters, more[..k]);
    }
  }

  /** Turning an entry into a noop takes its type out of the live ones, and leaves the others in order. */
  lemma LiveRemove(getters: seq<Getter>, p: nat) returns (k: nat)
    requires p < |getters| && getters[p].Getter?
    ensures k < |Live(getters)| && Live(getters)[k] == getters[p].typ
    ensures Live(getters[p := Noop]) == Live(getters)[..k] + Live(getters)[k + 1..]
  {
    hide Live;
    var rest := getters[p + 1..];
    assert getters == getters[..p] + ([getters[p]] + rest) && getters[p := Noop] == getters[..p] + ([Noop] + rest);
    LiveAppend(getters[..p], [getters[p]] + rest);
    LiveAppend([getters[p]], rest);
    LiveAppend(getters[..p], [Noop] + rest);
    LiveAppend([Noop], rest);
    LiveOne(getters[p]);
    LiveOne(Noop);
    k := |Live(getters[..p])|;
  }

  lemma LiveOne(g: Getter)
    ensures Live([g]) == if g.Getter? then [g.typ] else []
  {
    assert [g][..0] == [];
  }

  // ---------------------------------------------------------------- what a pass is to do

  /** Constructors are called in registration order, each at most once. */
  ghost predicate InRegistrationOrder(pass: seq<Event>) {
    forall a, b :: 0 <= a < b < |pass| && pass[a].Called? && pass[b].Called? ==> pass[a].serial < pass[b].serial
  }

  /** Nothing is called after its removal. */
  ghost predicate NeverAfterRemoval(pass: seq<Event>) {
    forall a, b :: 0 <= a < b < |pass| && pass[a].Removed? && pass[b].Called? ==> pass[a].serial != pass[b].serial
  }

  /** The entry was removed before its turn: when no entry from it on had been called. */
  ghost predicate RemovedInTime(serial: nat, pass: seq<Event>) {
    exists a :: 0 <= a < |pass| && pass[a] == Removed(serial) && CallsBelow(pass, a, serial)
  }

  /** The calls among the first n events are of earlier entries. */
  ghost predicate CallsBelow(pass: seq<Event>, n: int, serial: nat)
  {
    && n <= |pass|
    && forall c :: 0 <= c < n && pass[c].Called? ==> pass[c].serial < serial
  }

  /** The first i entries have had their turn: every one was called, or removed before its turn. */
  ghost predicate HadTurn(serials: seq<nat>, i: nat, pass: seq<Event>)
  {
    && i <= |serials|
    && (forall k :: 0 <= k < i ==> Called(serials[k]) in pass || RemovedInTime(serials[k], pass))
    && (forall e :: e in pass && e.Called? ==> e.serial in serials[..i])
  }

  lemma InTimeStays(serial: nat, pass: seq<Event>, e: Event)
    ensures RemovedInTime(serial, pass) ==> RemovedInTime(serial, pass + [e])
  {
    if RemovedInTime(serial, pass) {
      var a :| 0 <= a < |pass| && pass[a] == Removed(serial) && CallsBelow(pass, a, serial);
      var next := pass + [e];
      assert next[a] == Removed(serial) && CallsBelow(next, a, serial);
    }
  }

  /** More events leave the turns as they are, when they call nothing. */
  lemma TurnsStay(serials: seq<nat>, i: nat, pass: seq<Event>, e: Event)
    requires i <= |serials| && HadTurn(serials, i, pass) && !e.Called?
    ensures HadTurn(serials, i, pass + [e])
  {
    forall k | 0 <= k < i { InTimeStays(serials[k], pass, e); }
  }

  lemma TurnCalled(serials: seq<nat>, i: nat, pass: seq<Event>)
    requires i < |serials| && HadTurn(serials, i, pass)
    ensures HadTurn(serials, i + 1, pass + [Called(serials[i])])
  {
    var next := pass + [Called(serials[i])];
    assert next[|pass|] == Called(serials[i]) && serials[..i + 1] == serials[..i] + [serials[i]];
    forall k | 0 <= k < i { InTimeStays(serials[k], pass, Called(serials[i])); }
  }

  /** An entry that is a noop at its turn was removed in time. */
  lemma TurnSkipped(serials: seq<nat>, i: nat, pass: seq<Event>)
    requires i < |serials| && HadTurn(serials, i, pass) && Removed(serials[i]) in pass
    requires forall k :: 0 <= k < i ==> serials[k] < serials[i]
    ensures HadTurn(serials, i + 1, pass)
  {
    assert serials[..i + 1] == serials[..i] + [serials[i]];
    var a :| 0 <= a < |pass| && pass[a] == Removed(serials[i]);
    forall c | 0 <= c < a && pass[c].Called?
      ensures pass[c].serial < serials[i]
    {
      assert pass[c] in pass && pass[c].serial in serials[..i];
    }
    assert CallsBelow(pass, a, serials[i]);
  }

  /** The entries are the ones from before and those registered in this pass, and the noops are the
      ones removed in this pass. */
  ghost predicate Accounted(getters: seq<Getter>, serials: seq<nat>, start: seq<nat>, pass: seq<Event>)
  {
    && |serials| == |getters|
    && start <= serials
    && (forall k :: 0 <= k < |getters| ==> (getters[k] == Noop <==> Removed(serials[k]) in pass))
    && (forall k :: |start| <= k < |getters| ==> Registered(serials[k]) in pass)
    && (forall e :: e in pass ==> e.serial in serials)
  }

  /** The types that were called, in order. */
  function CalledTypes(pass: seq<Event>, types: seq<nat>): seq<nat> {
    if pass == [] then []
    else
      var k := |pass| - 1;
      CalledTypes(pass[..k], types) +
      if pass[k].Called? && pass[k].serial < |types| then [types[pass[k].serial]] else []
  }

  /** The state in the middle of a pass, at entry i. */
  ghost predicate Passing(getters: seq<Getter>, serials: seq<nat>, types: seq<nat>, start: seq<nat>, i: nat,
                          pass: seq<Event>) {
    && Orderly(getters, serials, types) && i <= |getters| == |serials|
    && HadTurn(serials, i, pass) && Accounted(getters, serials, start, pass)
    && InRegistrationOrder(pass) && NeverAfterRemoval(pass)
  }

  lemma PassStarts(getters: seq<Getter>, serials: seq<nat>, types: seq<nat>)
    requires Orderly(getters, serials, types) && Noop !in getters
    ensures Passing(getters, serials, types, serials, 0, [])
  {
  }

  lemma OrderAppends(pass: seq<Event>, e: Event)
    requires InRegistrationOrder(pass) && NeverAfterRemoval(pass)
    requires e.Called? ==> (forall x :: x in pass && x.Called? ==> x.serial < e.serial) && Removed(e.serial) !in pass
    ensures InRegistrationOrder(pass + [e]) && NeverAfterRemoval(pass + [e])
    ensures forall x :: x in pass + [e] <==> x in pass || x == e
  {
    forall a | 0 <= a < |pass|
      ensures pass[a] in pass
    {
    }
  }

  lemma OrderlyAppends(getters: seq<Getter>, serials: seq<nat>, types: seq<nat>, typ: nat)
    requires Orderly(getters, serials, types) && Getter(typ) !in getters
    ensures Orderly(getters + [Getter(typ)], serials + [|types|], types + [typ])
  {
  }

  lemma PassCalls(getters: seq<Getter>, serials: seq<nat>, types: seq<nat>, start: seq<nat>, i: nat, pass: seq<Event>)
    requires Passing(getters, serials, types, start, i, pass) && i < |getters| && getters[i].Getter?
    ensures Passing(getters, serials, types, start, i + 1, pass + [Called(serials[i])])
  {
    hide InRegistrationOrder, NeverAfterRemoval;
    CalledSoFar(serials, i, pass);
    TurnCalled(serials, i, pass);
    hide HadTurn;
    OrderAppends(pass, Called(serials[i]));
  }

  lemma PassSkips(getters: seq<Getter>, serials: seq<nat>, types: seq<nat>, start: seq<nat>, i: nat, pass: seq<Event>)
    requires Passing(getters, serials, types, start, i, pass) && i < |getters| && getters[i].Noop?
    ensures Passing(getters, serials, types, start, i + 1, pass)
  {
    TurnSkipped(serials, i, pass);
  }

  lemma CalledSoFar(serials: seq<nat>, i: nat, pass: seq<Event>)
    requires i <= |serials| && HadTurn(serials, i, pass)
    ensures forall e :: e in pass && e.Called? ==> e.serial in serials[..i]
  {
  }

  lemma AccountedRegisters(getters: seq<Getter>, serials: seq<nat>, types: seq<nat>, start: seq<nat>, i: nat,
                           pass: seq<Event>, typ: nat)
    requires Orderly(getters, serials, types) && i <= |serials|
    requires |serials| == |getters| && HadTurn(serials, i, pass) && Accounted(getters, serials, start, pass)
    ensures HadTurn(serials + [|types|], i, pass + [Registered(|types|)])
    ensures Accounted(getters + [Getter(typ)], serials + [|types|], start, pass + [Registered(|types|)])
  {
    hide Orderly;
    assert |types| !in serials by { SerialsBelow(getters, serials, types); }
    var e := Registered(|types|);
    assert forall x :: x in pass + [e] <==> x in pass || x == e;
    assert Removed(|types|) !in pass;
    TurnsStay(serials, i, pass, e);
    TurnsPrefix(serials, |types|, i, pass + [e]);
  }

  /** Only the entries that have had their turn matter. */
  lemma TurnsPrefix(serials: seq<nat>, serial: nat, i: nat, pass: seq<Event>)
    requires i <= |serials| && HadTurn(serials, i, pass)
    ensures HadTurn(serials + [serial], i, pass)
  {
    assert (serials + [serial])[..i] == serials[..i];
  }

  lemma SerialsBelow(getters: seq<Getter>, serials: seq<nat>, types: seq<nat>)
    requires Orderly(getters, serials, types)
    ensures forall s :: s in serials ==> s < |types|
  {
  }

  lemma PassRegisters(getters: seq<Getter>, serials: seq<nat>, types: seq<nat>, start: seq<nat>, i: nat,
                      pass: seq<Event>, typ: nat)
    requires Passing(getters, serials, types, start, i, pass) && Getter(typ) !in getters
    ensures Passing(getters + [Getter(typ)], serials + [|types|], types + [typ], start, i, pass + [Registered(|types|)])
  {
    hide InRegistrationOrder, NeverAfterRemoval;
    OrderAppends(pass, Registered(|types|));
    OrderlyAppends(getters, serials, types, typ);
    AccountedRegisters(getters, serials, types, start, i, pass, typ);
  }

  lemma PassRemoves(getters: seq<Getter>, serials: seq<nat>, types: seq<nat>, start: seq<nat>, i: nat,
                    pass: seq<Event>, p: nat)
    requires Passing(getters, serials, types, start, i, pass) && p < |getters| && getters[p].Getter?
    ensures Passing(getters[p := Noop], serials, types, start, i, pass + [Removed(serials[p])])
  {
    hide InRegistrationOrder, NeverAfterRemoval, HadTurn;
    TurnsStay(serials, i, pass, Removed(serials[p]));
    OrderAppends(pass, Removed(serials[p]));
  }

  lemma CalledTypesStep(pass: seq<Event>, types: seq<nat>, e: Event)
    ensures CalledTypes(pass + [e], types) ==
            CalledTypes(pass, types) + if e.Called? && e.serial < |types| then [types[e.serial]] else []
  {
    assert (pass + [e])[..|pass|] == pass;
  }

  lemma {:induction false} CalledTypesGrow(pass: seq<Event>, types: seq<nat>, typ: nat)
    requires forall e :: e in pass ==> e.serial < |types|
    ensures CalledTypes(pass, types + [typ]) == CalledTypes(pass, types)
  {
    if pass != [] {
      var k := |pass| - 1;
      assert pass[k] in pass;
      CalledTypesGrow(pass[..k], types, typ);
    }
  }

  // ---------------------------------------------------------------- the reference: a list with a cursor

  /** The live constructors before and after the cursor; removing takes them out at once. */
  datatype Cursor = Cursor(before: seq<nat>, after: seq<nat>)

  function Drop(s: seq<nat>, typ: nat): seq<nat> {
    if s == [] then [] else if s[0] == typ then s[1..] else [s[0]] + Drop(s[1..], typ)
  }

  /** An action that the assertions rule out does not happen. */
  function Act(c: Cursor, action: Action): Cursor {
    match action
    case Register(typ) => if typ in c.before + c.after then c else Cursor(c.before, c.after + [typ])
    case Remove(typ) =>
      if typ in c.before then Cursor(Drop(c.before, typ), c.after) else Cursor(c.before, Drop(c.after, typ))
  }

  function ActAll(c: Cursor, actions: seq<Action>): Cursor
    decreases |actions|
  {
    if actions == [] then c else ActAll(Act(c, actions[0]), actions[1..])
  }

  /** What is called, and what is live in the end. */
  datatype Outcome = Outcome(calls: seq<nat>, live: seq<nat>)
  {
    function After(before: seq<nat>): Outcome { Outcome(before + calls, live) }
  }

  /** The pass from the cursor on; script[k] belongs to the next call. */
  function Reference(c: Cursor, script: seq<seq<Action>>, k: nat): Outcome
    requires k <= |script|
    decreases |script| - k, |c.after|
  {
    if c.after == [] then Outcome([], c.before)
    else
      var moved := Cursor(c.before + [c.after[0]], c.after[1..]);
      (if k < |script| then Reference(ActAll(moved, script[k]), script, k + 1) else Reference(moved, script, k))
      .After([c.after[0]])
  }

  lemma ReferenceMoves(c: Cursor, script: seq<seq<Action>>, k: nat, calls: seq<nat>)
    requires k <= |script| && c.after != []
    ensures var moved, typ := Cursor(c.before + [c.after[0]], c.after[1..]), c.after[0];
            Reference(c, script, k).After(calls) ==
              (if k < |script| then Reference(ActAll(moved, script[k]), script, k + 1) else Reference(moved, script, k))
              .After(calls + [typ])
  {
  }

  lemma ReferenceEnds(c: Cursor, script: seq<seq<Action>>, k: nat, calls: seq<nat>)
    requires k <= |script|
    ensures c.after == [] ==> Reference(c, script, k).After(calls) == Outcome(calls, c.before)
    ensures Reference(c, script, k).After([]) == Reference(c, script, k)
  {
  }

  /** The entries, with the cursor at i. */
  function View(getters: seq<Getter>, i: nat): Cursor
    requires i <= |getters|
  {
    Cursor(Live(getters[..i]), Live(getters[i..]))
  }

  lemma {:induction false} DropAt(s: seq<nat>, typ: nat, k: nat)
    requires k < |s| && s[k] == typ && forall i :: 0 <= i < k ==> s[i] != typ
    ensures Drop(s, typ) == s[..k] + s[k + 1..]
  {
    if k > 0 {
      DropAt(s[1..], typ, k - 1);
      assert s[1..][..k - 1] == s[1..k] && s[1..][k..] == s[k + 1..];
    }
  }

  lemma {:induction false} DropAbsent(s: seq<nat>, typ: nat)
    requires typ !in s
    ensures Drop(s, typ) == s
  {
    if s != [] { DropAbsent(s[1..], typ); }
  }

  /** A noop in place of an entry is a type dropped from the live ones. */
  lemma NoopDrops(getters: seq<Getter>, p: nat)
    requires p < |getters| && getters[p].Getter?
    requires forall i, j :: 0 <= i < j < |Live(getters)| ==> Live(getters)[i] != Live(getters)[j]
    ensures Live(getters[p := Noop]) == Drop(Live(getters), getters[p].typ)
  {
    hide Live, Drop;
    var k := LiveRemove(getters, p);
    DropAt(Live(getters), getters[p].typ, k);
  }

  lemma ViewParts(getters: seq<Getter>, serials: seq<nat>, types: seq<nat>, i: nat)
    requires Orderly(getters, serials, types) && i <= |getters|
    ensures Live(getters) == Live(getters[..i]) + Live(getters[i..])
    ensures forall a, b :: 0 <= a < b < |Live(getters[..i])| ==> Live(getters[..i])[a] != Live(getters[..i])[b]
    ensures forall a, b :: 0 <= a < b < |Live(getters[i..])| ==> Live(getters[i..])[a] != Live(getters[i..])[b]
    ensures forall t :: t in Live(getters[i..]) ==> t !in Live(getters[..i])
  {
    hide Live;
    assert getters == getters[..i] + getters[i..];
    LiveAppend(getters[..i], getters[i..]);
    LiveCount(getters, serials, types);
    var l, r := Live(getters[..i]), Live(getters[i..]);
    assert forall a :: 0 <= a < |l| ==> (l + r)[a] == l[a];
    assert forall a :: 0 <= a < |r| ==> (l + r)[|l| + a] == r[a];
  }

  lemma ViewRegister(getters: seq<Getter>, serials: seq<nat>, types: seq<nat>, i: nat, typ: nat)
    requires Orderly(getters, serials, types) && i <= |getters|
    ensures typ !in Live(getters) ==> View(getters + [Getter(typ)], i) == Act(View(getters, i), Register(typ))
    ensures typ in Live(getters) ==> View(getters, i) == Act(View(getters, i), Register(typ))
  {
    hide Live;
    ViewParts(getters, serials, types, i);
    assert (getters + [Getter(typ)])[..i] == getters[..i];
    assert (getters + [Getter(typ)])[i..] == getters[i..] + [Getter(typ)];
    LiveAppend(getters[i..], [Getter(typ)]);
    LiveOne(Getter(typ));
  }

  lemma ViewRemove(getters: seq<Getter>, serials: seq<nat>, types: seq<nat>, i: nat, p: nat)
    requires Orderly(getters, serials, types) && i <= |getters| && p < |getters| && getters[p].Getter?
    ensures View(getters[p := Noop], i) == Act(View(getters, i), Remove(getters[p].typ))
  {
    hide Live, Drop;
    ViewParts(getters, serials, types, i);
    var now, g := getters[p := Noop], getters[p];
    if p < i {
      assert now[..i] == getters[..i][p := Noop] && now[i..] == getters[i..] && getters[..i][p] == g;
      NoopDrops(getters[..i], p);
      LiveMembers(getters[..i], g.typ);
    } else {
      assert now[..i] == getters[..i] && now[i..] == getters[i..][p - i := Noop] && getters[i..][p - i] == g;
      NoopDrops(getters[i..], p - i);
      LiveMembers(getters[i..], g.typ);
    }
  }

  lemma ViewAbsent(getters: seq<Getter>, serials: seq<nat>, types: seq<nat>, i: nat, typ: nat)
    requires Orderly(getters, serials, types) && i <= |getters| && typ !in Live(getters)
    ensures View(getters, i) == Act(View(getters, i), Remove(typ))
  {
    hide Live, Drop;
    ViewParts(getters, serials, types, i);
    DropAbsent(Live(getters[i..]), typ);
  }

  /** The cursor passes an entry. */
  lemma ViewMoves(getters: seq<Getter>, i: nat)
    requires i < |getters|
    ensures getters[i].Noop? ==> View(getters, i + 1) == View(getters, i)
    ensures getters[i].Getter? ==>
              var c := View(getters, i);
              c.after != [] && c.after[0] == getters[i].typ &&
              View(getters, i + 1) == Cursor(c.before + [getters[i].typ], c.after[1..])
  {
    hide Live;
    assert getters[..i + 1] == getters[..i] + [getters[i]] && getters[i..] == [getters[i]] + getters[i + 1..];
    LiveAppend(getters[..i], [getters[i]]);
    LiveAppend([getters[i]], getters[i + 1..]);
    LiveOne(getters[i]);
  }

  lemma ViewEnds(getters: seq<Getter>)
    ensures View(getters, |getters|) == Cursor(Live(getters), []) && View(getters, 0) == Cursor([], Live(getters))
  {
    assert getters[..|getters|] == getters && getters[0..] == getters;
  }

  lemma NoActs(c: Cursor, actions: seq<Action>)
    requires actions == []
    ensures ActAll(c, actions) == c
  {
  }

  lemma ActAllStep(c: Cursor, actions: seq<Action>, a: nat)
    requires a < |actions|
    ensures ActAll(c, actions[a..]) == ActAll(Act(c, actions[a]), actions[a + 1..])
  {
    assert actions[a..][0] == actions[a] && actions[a..][1..] == actions[a + 1..];
  }

  // ---------------------------------------------------------------- the builder

  class Builder {
    var getters: seq<Getter>
    ghost var serials: seq<nat>
    ghost var types: seq<nat>

    constructor ()
      ensures Valid() && Live(getters) == []
    {
      getters, serials, types := [], [], [];
    }

    ghost predicate Valid()
      reads this
    {
      Orderly(getters, serials, types)
    }

    /** std::find */
    method Find(typ: nat) returns (pos: nat)
      ensures pos <= |getters| && (pos < |getters| ==> getters[pos] == Getter(typ))
      ensures pos == |getters| <==> typ !in Live(getters)
    {
      pos := 0;
      while pos < |getters| && getters[pos] != Getter(typ)
        invariant pos <= |getters| && Getter(typ) !in getters[..pos]
      {
        pos := pos + 1;
      }
      LiveMembers(getters, typ);
    }

    method RegisterConstructor(typ: nat)
      requires Valid() && typ !in Live(getters)
      modifies this
      ensures Valid() && Live(getters) == old(Live(getters)) + [typ]
      ensures getters == old(getters) + [Getter(typ)] && types == old(types) + [typ]
      ensures serials == old(serials) + [|old(types)|]
    {
      hide Orderly;
      LiveMembers(getters, typ);
      OrderlyAppends(getters, serials, types, typ);
      getters := getters + [Getter(typ)];
      serials := serials + [|types|];
      types := types + [typ];
      assert getters[..|getters| - 1] == old(getters);
    }

    /** The entry stays, as a noop: the list may be in use. */
    method RemoveConstructor(typ: nat) returns (pos: nat)
      requires Valid() && typ in Live(getters)
      modifies this`getters
      ensures Valid() && pos < |getters|
      ensures old(getters)[pos] == Getter(typ) && getters == old(getters)[pos := Noop]
      ensures exists k :: 0 <= k < |old(Live(getters))| && old(Live(getters))[k] == typ
                && Live(getters) == old(Live(getters))[..k] + old(Live(getters))[k + 1..]
    {
      hide Live;
      pos := Find(typ);
      ghost var k := LiveRemove(getters, pos);
      getters := getters[pos := Noop];
    }

    /** std::remove and erase: drops the noops. */
    method DropNoops()
      requires Valid()
      modifies this`getters, this`serials
      ensures Valid() && Noop !in getters
      ensures Live(getters) == old(Live(getters)) && serials == old(LiveSerials(getters, serials))
    {
      hide Orderly, Live, LiveSerials;
      var kept: seq<Getter> := [];
      ghost var keptSerials: seq<nat> := [];
      DropStarts(getters, serials, types);
      for i := 0 to |getters|
        invariant getters == old(getters) && serials == old(serials)
        invariant Kept(getters, serials, types, i, kept, keptSerials)
      {
        DropNext(getters, serials, types, i, kept, keptSerials);
        if getters[i].Getter? {
          kept := kept + [getters[i]];
          keptSerials := keptSerials + [serials[i]];
        }
      }
      assert getters[..|getters|] == getters && serials[..|getters|] == serials;
      getters, serials := kept, keptSerials;
    }

    /** What a constructor does to the builder; what the assertions rule out does not happen. */
    method Perform(action: Action, ghost start: seq<nat>, ghost i: nat, ghost pass: seq<Event>, ghost calls: seq<nat>)
      returns (ghost events: seq<Event>)
      requires Passing(getters, serials, types, start, i, pass) && calls == CalledTypes(pass, types)
      modifies this
      ensures Passing(getters, serials, types, start, i, pass + events) && calls == CalledTypes(pass + events, types)
      ensures |old(getters)| <= |getters| && old(types) <= types
      ensures View(getters, i) == Act(old(View(getters, i)), action)
    {
      hide View, Act, Live, CalledTypes, HadTurn, InRegistrationOrder, NeverAfterRemoval;
      LiveMembers(getters, action.typ);
      var pos := Find(action.typ);
      events := [];
      assert pass + [] == pass;
      match action
      case Register(typ) =>
        ViewRegister(getters, serials, types, i, typ);
        if pos == |getters| {
          events := [Registered(|types|)];
          PassRegisters(getters, serials, types, start, i, pass, typ);
          PassBelow(getters, serials, types, start, i, pass);
          CalledTypesGrow(pass, types, typ);
          CalledTypesStep(pass, types + [typ], events[0]);
          RegisterConstructor(typ);
        }
      case Remove(typ) =>
        if pos < |getters| {
          var p := RemoveConstructor(typ);
          ViewRemove(old(getters), serials, types, i, p);
          events := [Removed(serials[p])];
          PassRemoves(old(getters), serials, types, start, i, pass, p);
          CalledTypesStep(pass, types, events[0]);
        } else {
          ViewAbsent(getters, serials, types, i, typ);
        }
    }

    /** Calls every constructor; script[k] is what the k-th of them does to the builder. The calls, and what is
        live in the end, are those of a list from which removed constructors vanish at once. So every entry,
        the ones added in the pass included, is called or was removed before its turn; none is called twice,
        out of order, or after its removal. */
    method BuildAll(script: seq<seq<Action>>) returns (calls: seq<nat>, ghost pass: seq<Event>)
      requires Valid()
      modifies this
      ensures Valid() && Outcome(calls, Live(getters)) == Reference(Cursor([], old(Live(getters))), script, 0)
      ensures InRegistrationOrder(pass) && NeverAfterRemoval(pass)
      ensures HadTurn(serials, |serials|, pass)
      ensures Accounted(getters, serials, old(LiveSerials(getters, serials)), pass)
      ensures calls == CalledTypes(pass, types) && old(types) <= types
    {
      hide Orderly, Live, LiveSerials, HadTurn, InRegistrationOrder, NeverAfterRemoval, Accounted, CalledTypes;
      hide View, Act, ActAll, Reference;
      DropNoops();
      ghost var reference := Reference(Cursor([], Live(getters)), script, 0);
      ViewEnds(getters);
      ReferenceEnds(View(getters, 0), script, 0, []);
      ghost var start := serials;
      calls, pass := [], [];
      PassStarts(getters, serials, types);
      NoneCalled(types);
      var i: nat := 0;
      var k: nat := 0;
      while i < |getters|
        invariant Passing(getters, serials, types, start, i, pass) && calls == CalledTypes(pass, types)
        invariant k <= |script| && old(types) <= types
        invariant reference == Reference(View(getters, i), script, k).After(calls)
        decreases |script| - k, |getters| - i
      {
        ViewMoves(getters, i);
        if getters[i].Getter? {
          ReferenceMoves(View(getters, i), script, k, calls);
          PassCalls(getters, serials, types, start, i, pass);
          CalledTypesStep(pass, types, Called(serials[i]));
          CalledIs(getters, serials, types, i);
          calls := calls + [getters[i].typ];
          pass := pass + [Called(serials[i])];
          if k < |script| {
            var actions := script[k];
            ghost var acted := ActAll(View(getters, i + 1), actions);
            assert actions[0..] == actions;
            for a := 0 to |actions|
              invariant Passing(getters, serials, types, start, i + 1, pass) && calls == CalledTypes(pass, types)
              invariant old(types) <= types && ActAll(View(getters, i + 1), actions[a..]) == acted
            {
              ActAllStep(View(getters, i + 1), actions, a);
              ghost var events := Perform(actions[a], start, i + 1, pass, calls);
              pass := pass + events;
            }
            NoActs(View(getters, i + 1), actions[|actions|..]);
            k := k + 1;
          }
        } else {
          PassSkips(getters, serials, types, start, i, pass);
        }
        i := i + 1;
      }
      ViewEnds(getters);
      ReferenceEnds(View(getters, i), script, k, calls);
    }

    /** The number of live constructors. */
    function GetSize(): (n: nat)
      requires Valid()
      reads this
      ensures n == |Live(getters)|
    {
      LiveCount(getters, serials, types);
      |getters| - CountNoops(getters)
    }
  }

  lemma NoneCalled(types: seq<nat>)
    ensures CalledTypes([], types) == []
  {
  }

  lemma CalledIs(getters: seq<Getter>, serials: seq<nat>, types: seq<nat>, i: nat)
    requires Orderly(getters, serials, types) && i < |getters| && getters[i].Getter?
    ensures serials[i] < |types| && types[serials[i]] == getters[i].typ
  {
  }

  lemma PassBelow(getters: seq<Getter>, serials: seq<nat>, types: seq<nat>, start: seq<nat>, i: nat, pass: seq<Event>)
    requires Passing(getters, serials, types, start, i, pass)
    ensures forall e :: e in pass ==> e.serial < |types|
  {
    hide HadTurn, InRegistrationOrder, NeverAfterRemoval;
    SerialsBelow(getters, serials, types);
  }

  /** kept is what remains of the first i entries. */
  ghost predicate Kept(getters: seq<Getter>, serials: seq<nat>, types: seq<nat>, i: nat, kept: seq<Getter>,
                       keptSerials: seq<nat>) {
    && Orderly(getters, serials, types) && i <= |getters| == |serials|
    && Orderly(kept, keptSerials, types) && Noop !in kept
    && (forall g :: g in kept ==> g in getters[..i])
    && (forall s :: s in keptSerials ==> s in serials[..i])
    && Live(kept) == Live(getters[..i]) && keptSerials == LiveSerials(getters[..i], serials[..i])
  }

  lemma DropStarts(getters: seq<Getter>, serials: seq<nat>, types: seq<nat>)
    requires Orderly(getters, serials, types)
    ensures Kept(getters, serials, types, 0, [], [])
  {
  }

  lemma DropNext(getters: seq<Getter>, serials: seq<nat>, types: seq<nat>, i: nat, kept: seq<Getter>,
                 keptSerials: seq<nat>)
    requires Kept(getters, serials, types, i, kept, keptSerials) && i < |getters|
    ensures if getters[i].Getter?
            then Kept(getters, serials, types, i + 1, kept + [getters[i]], keptSerials + [serials[i]])
            else Kept(getters, serials, types, i + 1, kept, keptSerials)
  {
    hide Live, LiveSerials;
    var g, s := getters[i], serials[i];
    assert getters[..i + 1] == getters[..i] + [g] && serials[..i + 1] == serials[..i] + [s];
    LiveNext(getters, serials, i);
    if g.Getter? {
      assert g !in getters[..i];
      assert forall t :: t in serials[..i] ==> t < s;
      KeepNext(kept, keptSerials, types, g, s);
      LiveNext(kept + [g], keptSerials + [s], |kept|);
      assert (kept + [g])[..|kept|] == kept && (kept + [g])[..|kept| + 1] == kept + [g];
    }
  }

  lemma LiveNext(getters: seq<Getter>, serials: seq<nat>, i: nat)
    requires i < |getters| == |serials|
    ensures Live(getters[..i + 1]) == Live(getters[..i]) + if getters[i].Getter? then [getters[i].typ] else []
    ensures LiveSerials(getters[..i + 1], serials[..i + 1]) ==
            LiveSerials(getters[..i], serials[..i]) + if getters[i].Getter? then [serials[i]] else []
  {
    assert getters[..i + 1][..i] == getters[..i] && serials[..i + 1][..i] == serials[..i];
  }

  lemma KeepNext(kept: seq<Getter>, keptSerials: seq<nat>, types: seq<nat>, g: Getter, s: nat)
    requires Orderly(kept, keptSerials, types) && g.Getter? && g !in kept && s < |types| && types[s] == g.typ
    requires forall t :: t in keptSerials ==> t < s
    ensures Orderly(kept + [g], keptSerials + [s], types)
  {
    assert forall i :: 0 <= i < |keptSerials| ==> keptSerials[i] in keptSerials;
  }
}
