/** What `coforge reminder` makes of its flags does not depend on their order. */
module ReminderGroups {
  import opened Wrappers
  import opened Sequences
  import opened Text
  import opened ReminderArgs

  /** `--all`, or a flag and the argument after it. */
  datatype Group = AllFlag | Pair(flag: string, value: string)

  function ArgsOf(g: Group): seq<string> {
    match g
    case AllFlag => ["--all"]
    case Pair(flag, value) => [flag, value]
  }

  function Args(groups: seq<Group>): seq<string> {
    if groups == [] then [] else ArgsOf(groups[0]) + Args(groups[1..])
  }

  /** A second argument never belongs to `--all`. */
  predicate AreGroups(groups: seq<Group>) {
    forall g :: g in groups ==> g != Pair("--all", if g.Pair? then g.value else "")
  }

  /* What the flags say, without their order. */

  predicate IsReadable(flags: Flags, g: Group) {
    g.Pair? ==> g.flag in flags.names && !StartsWith(g.value, "--") && flags.read(g.flag, g.value).Some?
  }

  /** The field a readable group sets, and its value. */
  function FieldOf(flags: Flags, g: Group): Field {
    if g.Pair? && g.flag in flags.names then flags.names[g.flag] else All
  }

  function ValueOf(flags: Flags, g: Group): Value {
    if g.Pair? && flags.read(g.flag, g.value).Some? then flags.read(g.flag, g.value).value else True
  }

  ghost predicate HaveDistinctFields(flags: Flags, groups: seq<Group>) {
    forall i, j :: 0 <= i < j < |groups| ==> FieldOf(flags, groups[i]) != FieldOf(flags, groups[j])
  }

  /** Every group can be read, and no two are of the same field. */
  ghost predicate IsConsistent(flags: Flags, groups: seq<Group>) {
    && (forall g :: g in groups ==> IsReadable(flags, g))
    && HaveDistinctFields(flags, groups)
  }

  /** The fields the groups set. */
  function RequestOf(flags: Flags, groups: seq<Group>): Request {
    if groups == [] then map[]
    else
      var init, last := groups[..|groups| - 1], groups[|groups| - 1];
      RequestOf(flags, init)[FieldOf(flags, last) := ValueOf(flags, last)]
  }

  ghost predicate HasField(flags: Flags, groups: seq<Group>, f: Field) {
    exists g :: g in groups && FieldOf(flags, g) == f
  }

  lemma {:induction false} RequestHolds(flags: Flags, groups: seq<Group>, f: Field)
    ensures f in RequestOf(flags, groups) <==> HasField(flags, groups, f)
  {
    if groups != [] {
      var init, last := groups[..|groups| - 1], groups[|groups| - 1];
      assert groups == init + [last];
      RequestHolds(flags, init, f);
      if HasField(flags, init, f) {
        var g :| g in init && FieldOf(flags, g) == f;
        assert g in groups;
      }
    }
  }

  lemma {:induction false} RequestValue(flags: Flags, groups: seq<Group>, g: Group)
    requires HaveDistinctFields(flags, groups) && g in groups
    ensures FieldOf(flags, g) in RequestOf(flags, groups)
    ensures RequestOf(flags, groups)[FieldOf(flags, g)] == ValueOf(flags, g)
  {
    var init, last := groups[..|groups| - 1], groups[|groups| - 1];
    var i :| 0 <= i < |groups| && groups[i] == g;
    if i < |init| {
      assert init[i] == g && HaveDistinctFields(flags, init);
      RequestValue(flags, init, g);
      assert FieldOf(flags, groups[i]) != FieldOf(flags, last);
    }
  }

  lemma ConsistencyIsUnordered(flags: Flags, xs: seq<Group>, ys: seq<Group>)
    requires multiset(xs) == multiset(ys) && IsConsistent(flags, xs)
    ensures IsConsistent(flags, ys) && RequestOf(flags, xs) == RequestOf(flags, ys)
  {
    forall g
      ensures g in xs <==> g in ys
    {
      assert g in xs <==> g in multiset(xs);
      assert g in ys <==> g in multiset(ys);
    }
    assert IsDistinct(xs);
    PermutationIsDistinct(xs, ys);
    forall i, j | 0 <= i < j < |ys|
      ensures FieldOf(flags, ys[i]) != FieldOf(flags, ys[j])
    {
      assert ys[i] in xs && ys[j] in xs;
      var a :| 0 <= a < |xs| && xs[a] == ys[i];
      var b :| 0 <= b < |xs| && xs[b] == ys[j];
    }
    RequestIsUnordered(flags, xs, ys);
  }

  lemma RequestIsUnordered(flags: Flags, xs: seq<Group>, ys: seq<Group>)
    requires HaveDistinctFields(flags, xs) && HaveDistinctFields(flags, ys)
    requires forall g :: g in xs <==> g in ys
    ensures RequestOf(flags, xs) == RequestOf(flags, ys)
  {
    forall f
      ensures f in RequestOf(flags, xs) <==> f in RequestOf(flags, ys)
      ensures f in RequestOf(flags, xs) ==> RequestOf(flags, xs)[f] == RequestOf(flags, ys)[f]
    {
      RequestHolds(flags, xs, f);
      RequestHolds(flags, ys, f);
      if HasField(flags, xs, f) {
        var g :| g in xs && FieldOf(flags, g) == f;
        RequestValue(flags, xs, g);
        RequestValue(flags, ys, g);
      }
    }
  }

  /* The loop computes exactly that. */

  /** The loop's state after some groups. */
  ghost predicate IsStateOf(flags: Flags, groups: seq<Group>, s: State) {
    && IsConsistent(flags, groups)
    && s.request == RequestOf(flags, groups)
    && AreSeen(groups, s.seen)
    && AreNoted(flags, groups, s.flagForField)
  }

  ghost predicate AreSeen(groups: seq<Group>, seen: set<string>) {
    forall flag :: flag in seen <==> exists g :: g in groups && flag == ArgsOf(g)[0]
  }

  ghost predicate AreNoted(flags: Flags, groups: seq<Group>, flagForField: map<Field, string>) {
    && (forall f :: f in flagForField <==> exists g :: g in groups && g.Pair? && FieldOf(flags, g) == f)
    && (forall g :: g in groups && g.Pair? ==> flagForField[FieldOf(flags, g)] == g.flag)
  }

  lemma GroupIsSeen(groups: seq<Group>, g: Group, seen: set<string>)
    requires AreSeen(groups, seen)
    ensures AreSeen(groups + [g], seen + {ArgsOf(g)[0]})
  {
    assert forall h :: h in groups + [g] <==> h in groups || h == g;
  }

  lemma GroupIsNoted(flags: Flags, groups: seq<Group>, g: Group, flagForField: map<Field, string>)
    requires AreNoted(flags, groups, flagForField) && !HasField(flags, groups, FieldOf(flags, g))
    ensures AreNoted(flags, groups + [g], if g.Pair? then flagForField[FieldOf(flags, g) := g.flag] else flagForField)
  {
    assert forall h :: h in groups + [g] <==> h in groups || h == g;
  }

  /** What the loop does with one more group. */
  function OneGroup(flags: Flags, s: State, g: Group): Option<State> {
    if ArgsOf(g)[0] in s.seen then None
    else if g.AllFlag? then Some(State(s.request[All := True], s.seen + {"--all"}, s.flagForField))
    else if !IsReadable(flags, g) then None
    else
      var field := FieldOf(flags, g);
      if field in s.flagForField && s.flagForField[field] != g.flag then None
      else
        Some(State(s.request[field := ValueOf(flags, g)], s.seen + {g.flag}, s.flagForField[field := g.flag]))
  }

  lemma LoopTakesGroup(flags: Flags, g: Group, rest: seq<string>, s: State)
    requires g != Pair("--all", if g.Pair? then g.value else "")
    ensures Loop(flags, ArgsOf(g) + rest, s) ==
            (var t := OneGroup(flags, s, g); if t.None? then None else Loop(flags, rest, t.value))
  {
    var args := ArgsOf(g) + rest;
    if g.AllFlag? {
      assert args[1..] == rest;
    } else {
      assert args[2..] == rest;
    }
  }

  /** What the loop does with groups instead of arguments. */
  function GroupLoop(flags: Flags, groups: seq<Group>, s: State): Option<State> {
    if groups == [] then Some(s)
    else
      var t := OneGroup(flags, s, groups[0]);
      if t.None? then None else GroupLoop(flags, groups[1..], t.value)
  }

  lemma {:induction false} LoopTakesGroups(flags: Flags, groups: seq<Group>, s: State)
    requires AreGroups(groups)
    ensures Loop(flags, Args(groups), s) == GroupLoop(flags, groups, s)
  {
    if groups != [] {
      LoopTakesGroup(flags, groups[0], Args(groups[1..]), s);
      var t := OneGroup(flags, s, groups[0]);
      if t.Some? {
        LoopTakesGroups(flags, groups[1..], t.value);
      }
    }
  }

  lemma ConsistentPrefix(flags: Flags, all: seq<Group>, done: seq<Group>, rest: seq<Group>)
    requires all == done + rest && IsConsistent(flags, all)
    ensures IsConsistent(flags, done)
  {
    forall i, j | 0 <= i < j < |done|
      ensures FieldOf(flags, done[i]) != FieldOf(flags, done[j])
    {
      assert done[i] == all[i] && done[j] == all[j];
    }
  }

  lemma ConsistentAppend(flags: Flags, done: seq<Group>, g: Group)
    requires IsConsistent(flags, done)
    ensures IsConsistent(flags, done + [g]) <==> IsReadable(flags, g) && !HasField(flags, done, FieldOf(flags, g))
  {
    var more := done + [g];
    assert forall h :: h in more <==> h in done || h == g;
    if IsConsistent(flags, more) {
      assert g in more;
      forall h | h in done
        ensures FieldOf(flags, h) != FieldOf(flags, g)
      {
        var i :| 0 <= i < |done| && done[i] == h;
        assert more[i] == h && more[|done|] == g;
      }
    }
  }

  /** A repeated flag is refused as such, another flag of the same field as a combination. */
  lemma GroupFits(flags: Flags, done: seq<Group>, g: Group, s: State)
    requires AreDashed(flags) && IsStateOf(flags, done, s) && IsReadable(flags, g)
    ensures OneGroup(flags, s, g).Some? <==> !HasField(flags, done, FieldOf(flags, g))
  {
    forall h | h in done
      ensures FieldOf(flags, h) == All <==> h.AllFlag?
      ensures h.Pair? ==> h.flag in flags.names && FieldOf(flags, h) in s.flagForField
    {
      assert IsReadable(flags, h);
    }
  }

  lemma GroupIsRecorded(flags: Flags, done: seq<Group>, g: Group, s: State)
    requires AreDashed(flags) && IsStateOf(flags, done, s)
    requires IsConsistent(flags, done + [g]) && OneGroup(flags, s, g).Some?
    ensures IsStateOf(flags, done + [g], OneGroup(flags, s, g).value)
  {
    var more, t := done + [g], OneGroup(flags, s, g).value;
    assert more[..|done|] == done;
    ConsistentAppend(flags, done, g);
    GroupIsSeen(done, g, s.seen);
    GroupIsNoted(flags, done, g, s.flagForField);
    assert t.request == RequestOf(flags, more);
  }

  lemma OneMoreGroup(flags: Flags, done: seq<Group>, g: Group, s: State)
    requires AreDashed(flags) && IsStateOf(flags, done, s)
    requires g != Pair("--all", if g.Pair? then g.value else "")
    ensures OneGroup(flags, s, g).Some? <==> IsConsistent(flags, done + [g])
    ensures OneGroup(flags, s, g).Some? ==> IsStateOf(flags, done + [g], OneGroup(flags, s, g).value)
  {
    ConsistentAppend(flags, done, g);
    if IsReadable(flags, g) {
      GroupFits(flags, done, g, s);
    }
    if OneGroup(flags, s, g).Some? {
      GroupIsRecorded(flags, done, g, s);
    }
  }

  /** The loop goes on exactly with groups that are consistent so far, and then its state is theirs. */
  lemma StepIsUnordered(flags: Flags, all: seq<Group>, done: seq<Group>, g: Group, rest: seq<Group>, s: State)
    requires AreDashed(flags) && IsStateOf(flags, done, s) && all == done + [g] + rest
    requires g != Pair("--all", if g.Pair? then g.value else "")
    ensures OneGroup(flags, s, g).Some? ==> IsStateOf(flags, done + [g], OneGroup(flags, s, g).value)
    ensures OneGroup(flags, s, g).None? ==> !IsConsistent(flags, all)
  {
    OneMoreGroup(flags, done, g, s);
    if IsConsistent(flags, all) {
      ConsistentPrefix(flags, all, done + [g], rest);
    }
  }

  lemma {:induction false} LoopIsUnordered(flags: Flags, all: seq<Group>, done: seq<Group>, rest: seq<Group>, s: State)
    requires AreDashed(flags) && IsStateOf(flags, done, s) && AreGroups(rest) && all == done + rest
    ensures
      var t := GroupLoop(flags, rest, s);
      && (t.Some? <==> IsConsistent(flags, all))
      && (t.Some? ==> t.value.request == RequestOf(flags, all))
    decreases |rest|
  {
    if rest == [] {
      assert all == done;
    } else {
      assert all == done + [rest[0]] + rest[1..];
      StepIsUnordered(flags, all, done, rest[0], rest[1..], s);
      var t := OneGroup(flags, s, rest[0]);
      if t.Some? {
        LoopIsUnordered(flags, all, done + [rest[0]], rest[1..], t.value);
      }
    }
  }

  /* Main results. */

  lemma NothingIsStateOfNothing(flags: Flags)
    ensures IsStateOf(flags, [], NOTHING)
  {
  }

  /** The parser accepts exactly the consistent groups, with the fields they set, in any order. */
  lemma ParseOfGroups(readers: Readers, operation: string, groups: seq<Group>)
    requires IsOperation(operation) && AreGroups(groups)
    ensures
      var flags := ReminderFlags(readers);
      Parse(readers, [operation] + Args(groups)) ==
      if IsConsistent(flags, groups) then Finish(readers, operation, RequestOf(flags, groups)) else None
  {
    var flags := ReminderFlags(readers);
    ReminderFlagsAreDashed(readers);
    NothingIsStateOfNothing(flags);
    LoopTakesGroups(flags, groups, NOTHING);
    LoopIsUnordered(flags, groups, [], groups, NOTHING);
    assert ([operation] + Args(groups))[1..] == Args(groups);
  }

  /** Permuting the flag groups changes neither whether they are accepted nor the request. */
  lemma FlagOrderDoesNotMatter(readers: Readers, operation: string, xs: seq<Group>, ys: seq<Group>)
    requires AreGroups(xs) && AreGroups(ys) && multiset(xs) == multiset(ys)
    ensures Parse(readers, [operation] + Args(xs)) == Parse(readers, [operation] + Args(ys))
  {
    if IsOperation(operation) {
      var flags := ReminderFlags(readers);
      ParseOfGroups(readers, operation, xs);
      ParseOfGroups(readers, operation, ys);
      if IsConsistent(flags, xs) {
        ConsistencyIsUnordered(flags, xs, ys);
      }
      if IsConsistent(flags, ys) {
        ConsistencyIsUnordered(flags, ys, xs);
      }
    }
  }

  /** Whatever the loop gets through is a sequence of groups. */
  lemma {:induction false} AcceptedArgsAreGroups(flags: Flags, args: seq<string>, s: State) returns (groups: seq<Group>)
    requires Loop(flags, args, s).Some?
    ensures AreGroups(groups) && args == Args(groups)
    ensures forall g :: g in groups ==> IsReadable(flags, g)
    decreases |args|
  {
    if args == [] {
      groups := [];
    } else {
      var flag := args[0];
      var g := if flag == "--all" then AllFlag else Pair(flag, args[1]);
      var rest := args[|ArgsOf(g)|..];
      assert args == ArgsOf(g) + rest;
      LoopTakesGroup(flags, g, rest, s);
      var tail := AcceptedArgsAreGroups(flags, rest, OneGroup(flags, s, g).value);
      groups := [g] + tail;
      assert groups[1..] == tail;
    }
  }

  predicate SetsField(flags: Flags, arg: string, f: Field) {
    if arg == "--all" then f == All else arg in flags.names && flags.names[arg] == f
  }

  /** At how many positions an argument is a flag of the field, aliases included. */
  function SetterCount(flags: Flags, args: seq<string>, f: Field): nat {
    if args == [] then 0 else Count(SetsField(flags, args[0], f)) + SetterCount(flags, args[1..], f)
  }

  lemma {:induction false} SettersOfGroups(flags: Flags, groups: seq<Group>, f: Field)
    requires AreDashed(flags) && IsConsistent(flags, groups)
    ensures SetterCount(flags, Args(groups), f) == if HasField(flags, groups, f) then 1 else 0
  {
    if groups != [] {
      var g, rest := groups[0], groups[1..];
      assert groups == [g] + rest && IsReadable(flags, g);
      forall i, j | 0 <= i < j < |rest|
        ensures FieldOf(flags, rest[i]) != FieldOf(flags, rest[j])
      {
        assert rest[i] == groups[i + 1] && rest[j] == groups[j + 1];
      }
      SettersOfGroups(flags, rest, f);
      SettersOfGroup(flags, g, Args(rest), f);
      forall h | h in rest
        ensures FieldOf(flags, h) != FieldOf(flags, g)
      {
        var i :| 0 <= i < |rest| && rest[i] == h;
        assert groups[i + 1] == h && groups[0] == g;
      }
      assert forall h :: h in groups <==> h == g || h in rest;
    }
  }

  lemma SettersOfGroup(flags: Flags, g: Group, rest: seq<string>, f: Field)
    requires AreDashed(flags) && IsReadable(flags, g)
    ensures SetterCount(flags, ArgsOf(g) + rest, f) == Count(FieldOf(flags, g) == f) + SetterCount(flags, rest, f)
  {
    var args := ArgsOf(g) + rest;
    assert args[1..] == ArgsOf(g)[1..] + rest;
    if g.Pair? {
      assert StartsWith("--all", "--");
      assert args[1..] == [g.value] + rest;
      assert args[1..][1..] == rest;
    }
  }

  /**
   * In every accepted parse each field that came from the arguments was set at exactly one position,
   * and no flag went unused; what is not from the arguments is the default timezone.
   */
  lemma EachFieldIsSetOnce(readers: Readers, args: seq<string>) returns (given: Request)
    requires Parse(readers, args).Some?
    ensures Parse(readers, args).value == WithTimezone(given)
    ensures forall f :: SetterCount(ReminderFlags(readers), args[1..], f) == if f in given then 1 else 0
  {
    var flags := ReminderFlags(readers);
    ReminderFlagsAreDashed(readers);
    var groups := AcceptedArgsAreGroups(flags, args[1..], NOTHING);
    NothingIsStateOfNothing(flags);
    LoopTakesGroups(flags, groups, NOTHING);
    LoopIsUnordered(flags, groups, [], groups, NOTHING);
    given := RequestOf(flags, groups);
    forall f
      ensures SetterCount(flags, args[1..], f) == if f in given then 1 else 0
    {
      RequestHolds(flags, groups, f);
      SettersOfGroups(flags, groups, f);
    }
  }

  /**
   * How many flags of a time or a change stand in accepted arguments: an update has exactly one that
   * changes something, a snooze exactly one time, a schedule at most one, and none only when it
   * repeats, and every other operation none.
   */
  lemma AcceptedArgsHaveOneTime(readers: Readers, args: seq<string>)
    requires Parse(readers, args).Some?
    ensures
      var flags, rest := ReminderFlags(readers), args[1..];
      var times := SetterCount(flags, rest, DelaySeconds) + SetterCount(flags, rest, FireAt);
      match args[0]
      case "update" => times + SetterCount(flags, rest, Repeat) + SetterCount(flags, rest, Title) == 1
      case "snooze" => times == 1
      case "schedule" => times <= 1 && (times == 0 ==> SetterCount(flags, rest, Repeat) == 1)
      case _ => times == 0
  {
    var given := EachFieldIsSetOnce(readers, args);
    assert HasValidShape(readers, args[0], WithTimezone(given));
    assert forall f :: f != Timezone ==> (f in WithTimezone(given) <==> f in given);
  }
}
