/** The update dispatcher of a partial update: a registry from property name to
    callback, the two ways of registering a callback (by name, and by an accessor
    expression that must point at a top-level property of the source), and the
    filtered dispatch that runs, in order, the callbacks of the names present in
    an update. */
module PartialUpdater {

  datatype Option<+T> = None | Some(value: T)

  datatype Result<+T, +E> = Success(value: T) | Failure(error: E)

  /** Whatever a callback throws; only its message is modelled. */
  datatype Exception = Exception(message: string)

  /** The effect of one callback on the destination. A callback either returns
      normally, or throws; in both cases `dest` is the destination as the
      callback left it, so changes made before a throw are kept. */
  datatype Step<D> = Returned(dest: D) | Threw(error: Exception, dest: D)

  /** A map callback: it reads the whole source and updates the destination. */
  type Callback<!S, !D> = (S, D) -> Step<D>

  /** How an application of a partial update ends: every present callback ran,
      or one of them threw and the exception reaches the caller. In both cases
      `dest` is the destination as the callbacks that ran left it. */
  datatype Outcome<D> = Completed(dest: D) | Aborted(error: Exception, dest: D)

  /** An application together with the names whose callbacks ran, in order. */
  datatype Run<D> = Run(outcome: Outcome<D>, invoked: seq<string>)

  // ---------------------------------------------------------------------------
  // Reflection and expression trees, reduced to what the shape check looks at

  /** The runtime description of a property; only its name is used. */
  datatype PropertyInfo = PropertyInfo(name: string)

  /** The member a member access refers to: a property or a field. */
  datatype MemberInfo = PropertyMember(property: PropertyInfo) | FieldMember(fieldName: string)

  /** The body of an accessor lambda `source => ...`: the lambda's parameter, a
      type conversion, a member access on an instance (`None` for a static
      member), or any other node (a constant, arithmetic, a method call, ...). */
  datatype Expr =
    | Parameter
    | Convert(operand: Expr)
    | MemberAccess(instance: Option<Expr>, member: MemberInfo)
    | Other

  /** Why a typed registration fails: the body is not a member access on the
      parameter or on a conversion (an argument exception), or it is one but the
      member is a field, which the cast to a property rejects. */
  datatype AccessorError = InvalidExpression | InvalidCast

  /** The instance nodes the shape check accepts: the parameter itself, or a
      conversion of any expression at all (the conversion's operand is not
      looked at). */
  predicate AcceptedInstance(instance: Option<Expr>)
  {
    instance.Some? && (instance.value.Parameter? || instance.value.Convert?)
  }

  /** The shape check of the typed registration: the property an accessor body
      names, or why it is refused. */
  function ResolveAccessor(body: Expr): (r: Result<PropertyInfo, AccessorError>)
    ensures r.Success? <==>
              body.MemberAccess? && AcceptedInstance(body.instance) && body.member.PropertyMember?
    ensures r.Success? ==> body.member == PropertyMember(r.value)
    ensures r == Failure(InvalidCast) <==>
              body.MemberAccess? && AcceptedInstance(body.instance) && body.member.FieldMember?
    ensures r == Failure(InvalidExpression) <==>
              !(body.MemberAccess? && AcceptedInstance(body.instance))
  {
    match body
    case MemberAccess(Some(Parameter), member) => CastToProperty(member)
    case MemberAccess(Some(Convert(_)), member) => CastToProperty(member)
    case _ => Failure(InvalidExpression)
  }

  /** The cast of the accessed member to a property. */
  function CastToProperty(member: MemberInfo): Result<PropertyInfo, AccessorError>
  {
    match member
    case PropertyMember(p) => Success(p)
    case FieldMember(_) => Failure(InvalidCast)
  }

  /** What the registration's documentation asks for, "a property of the
      source" that is a top-level member: the parameter's own property,
      possibly reached through one conversion of the parameter. */
  predicate DenotesSourceProperty(body: Expr, name: string)
  {
    || body == MemberAccess(Some(Parameter), PropertyMember(PropertyInfo(name)))
    || body == MemberAccess(Some(Convert(Parameter)), PropertyMember(PropertyInfo(name)))
  }

  /** Every accessor that denotes a top-level property of the source is accepted
      and resolves to that property's name. */
  lemma ResolveAccessorAcceptsSourceProperties(body: Expr, name: string)
    requires DenotesSourceProperty(body, name)
    ensures ResolveAccessor(body) == Success(PropertyInfo(name))
  {
  }

  /** A path of two members (`source.Title.Length`) is refused with the argument
      exception, whatever the inner member is. */
  lemma ResolveAccessorRejectsNestedPaths(inner: Option<Expr>, first: MemberInfo, second: MemberInfo)
    ensures ResolveAccessor(MemberAccess(Some(MemberAccess(inner, first)), second)) == Failure(InvalidExpression)
  {
  }

  /** As written, the check accepts a nested path as soon as the inner part is
      wrapped in a conversion: `((T) source.Inner).Title` registers under
      "Title", although it is not a property of the source. */
  lemma ResolveAccessorAcceptsCastNestedPath()
    ensures var inner := MemberAccess(Some(Parameter), PropertyMember(PropertyInfo("Inner")));
            var body := MemberAccess(Some(Convert(inner)), PropertyMember(PropertyInfo("Title")));
            !DenotesSourceProperty(body, "Title") && ResolveAccessor(body) == Success(PropertyInfo("Title"))
  {
  }

  // ---------------------------------------------------------------------------
  // The specification of an application

  /** `sub` is `s` with some elements left out, the rest in their order. */
  predicate IsSubsequence(sub: seq<string>, s: seq<string>)
    decreases |s|
  {
    || sub == []
    || (s != [] && ((sub[0] == s[0] && IsSubsequence(sub[1..], s[1..])) || IsSubsequence(sub, s[1..])))
  }

  /** The names of `names` that have a callback, in their order, each occurrence
      kept. */
  function Filter(names: seq<string>, keys: set<string>): (r: seq<string>)
    ensures forall n :: multiset(r)[n] == if n in keys then multiset(names)[n] else 0
    ensures forall i :: 0 <= i < |r| ==> r[i] in keys
    ensures IsSubsequence(r, names)
  {
    if names == [] then []
    else
      var rest := Filter(names[1..], keys);
      assert names == [names[0]] + names[1..];
      assert multiset(names) == multiset([names[0]]) + multiset(names[1..]);
      if names[0] in keys then
        var r := [names[0]] + rest;
        assert r[0] == names[0] && r[1..] == rest;
        assert multiset(r) == multiset([names[0]]) + multiset(rest);
        r
      else rest
  }

  /** Runs, in order, the callback of every name of `properties` that has one,
      threading the destination through them, and stops at the first callback
      that throws. */
  function Dispatch<S, D>(callbacks: map<string, Callback<S, D>>, source: S, destination: D,
                          properties: seq<string>): (r: Run<D>)
    ensures properties == [] ==> r == Run(Completed(destination), [])
    ensures |r.invoked| <= |properties|
    ensures r.outcome.Aborted? ==> r.invoked != [] && r.invoked[|r.invoked| - 1] in callbacks
    decreases |properties|
  {
    if properties == [] then Run(Completed(destination), [])
    else
      var p := properties[0];
      if p !in callbacks then Dispatch(callbacks, source, destination, properties[1..])
      else
        match callbacks[p](source, destination)
        case Returned(d) =>
          var rest := Dispatch(callbacks, source, d, properties[1..]);
          Run(rest.outcome, [p] + rest.invoked)
        case Threw(e, d) => Run(Aborted(e, d), [p])
  }

  /** One step of an application from position `i` of the names. */
  lemma DispatchFrom<S, D>(callbacks: map<string, Callback<S, D>>, source: S, destination: D,
                           properties: seq<string>, i: nat)
    requires i < |properties|
    ensures properties[i] !in callbacks ==>
              Dispatch(callbacks, source, destination, properties[i..]) ==
              Dispatch(callbacks, source, destination, properties[i + 1..])
    ensures properties[i] in callbacks ==>
              var step := callbacks[properties[i]](source, destination);
              Dispatch(callbacks, source, destination, properties[i..]) ==
                match step
                case Returned(d) =>
                  var rest := Dispatch(callbacks, source, d, properties[i + 1..]);
                  Run(rest.outcome, [properties[i]] + rest.invoked)
                case Threw(e, d) => Run(Aborted(e, d), [properties[i]])
  {
    assert properties[i..][0] == properties[i] && properties[i..][1..] == properties[i + 1..];
  }

  /** The names whose callbacks ran are always a prefix of the present names that
      have a callback: nothing runs out of order, and nothing is skipped before
      the last callback that ran. */
  lemma {:induction false} InvokedIsPrefixOfFiltered<S, D>(callbacks: map<string, Callback<S, D>>, source: S,
                                                         destination: D, properties: seq<string>)
    ensures Dispatch(callbacks, source, destination, properties).invoked <= Filter(properties, callbacks.Keys)
    decreases |properties|
  {
    if properties != [] {
      var p := properties[0];
      if p !in callbacks {
        InvokedIsPrefixOfFiltered(callbacks, source, destination, properties[1..]);
      } else {
        match callbacks[p](source, destination)
        case Returned(d) =>
          InvokedIsPrefixOfFiltered(callbacks, source, d, properties[1..]);
        case Threw(_, _) =>
      }
    }
  }

  /** Only the callbacks of names that are present and registered ever run. */
  lemma InvokedArePresentAndRegistered<S, D>(callbacks: map<string, Callback<S, D>>, source: S,
                                             destination: D, properties: seq<string>)
    ensures forall n :: n in Dispatch(callbacks, source, destination, properties).invoked ==>
                          n in callbacks && n in properties
  {
    var invoked := Dispatch(callbacks, source, destination, properties).invoked;
    var f := Filter(properties, callbacks.Keys);
    InvokedIsPrefixOfFiltered(callbacks, source, destination, properties);
    forall n | n in invoked ensures n in callbacks && n in properties {
      var i :| 0 <= i < |invoked| && invoked[i] == n;
      assert f[i] == n;
      assert multiset(f)[n] > 0;
    }
  }

  /** When no callback throws, the callbacks that ran are exactly those of the
      present names that have one, in the order of the names, once per
      occurrence. */
  lemma {:induction false} CompletedInvokesFiltered<S, D>(callbacks: map<string, Callback<S, D>>, source: S,
                                                        destination: D, properties: seq<string>)
    requires Dispatch(callbacks, source, destination, properties).outcome.Completed?
    ensures Dispatch(callbacks, source, destination, properties).invoked == Filter(properties, callbacks.Keys)
    decreases |properties|
  {
    if properties != [] {
      var p := properties[0];
      if p !in callbacks {
        CompletedInvokesFiltered(callbacks, source, destination, properties[1..]);
      } else {
        match callbacks[p](source, destination)
        case Returned(d) =>
          CompletedInvokesFiltered(callbacks, source, d, properties[1..]);
      }
    }
  }

  /** When no callback throws, each name that has a callback had it run exactly
      as many times as the name is present, and no other callback ran. */
  lemma EachPresentCallbackRunsOncePerOccurrence<S, D>(callbacks: map<string, Callback<S, D>>, source: S,
                                                       destination: D, properties: seq<string>)
    requires Dispatch(callbacks, source, destination, properties).outcome.Completed?
    ensures forall n :: multiset(Dispatch(callbacks, source, destination, properties).invoked)[n] ==
                          if n in callbacks then multiset(properties)[n] else 0
  {
    CompletedInvokesFiltered(callbacks, source, destination, properties);
  }

  /** A callback that throws ends the application: it is the last callback that
      ran, the callbacks before it were exactly those of the present names
      before it, and the outcome carries its exception and the destination as it
      left it, including the effects of the callbacks before it. */
  ghost predicate AbortsAt<S, D>(callbacks: map<string, Callback<S, D>>, source: S, destination: D,
                                 properties: seq<string>, k: int)
    requires 0 <= k < |properties|
  {
    var before := Dispatch(callbacks, source, destination, properties[..k]);
    var run := Dispatch(callbacks, source, destination, properties);
    && properties[k] in callbacks
    && before.outcome.Completed?
    && run.outcome.Aborted?
    && callbacks[properties[k]](source, before.outcome.dest) == Threw(run.outcome.error, run.outcome.dest)
    && run.invoked == before.invoked + [properties[k]]
  }

  /** An abort at position `k` after the first name is an abort at `k + 1`
      with that name in front, when its callback is missing or returned `next`. */
  lemma AbortsAtAfterFirst<S, D>(callbacks: map<string, Callback<S, D>>, source: S, destination: D, next: D,
                                 properties: seq<string>, k: nat)
    requires k + 1 < |properties|
    requires properties[0] !in callbacks ==> next == destination
    requires properties[0] in callbacks ==> callbacks[properties[0]](source, destination) == Returned(next)
    requires AbortsAt(callbacks, source, next, properties[1..], k)
    ensures AbortsAt(callbacks, source, destination, properties, k + 1)
  {
    var p, tail := properties[0], properties[1..];
    var prefix := properties[..k + 1];
    assert prefix[0] == p && prefix[1..] == tail[..k];
    assert properties[k + 1] == tail[k];
    var before := Dispatch(callbacks, source, next, tail[..k]);
    var run := Dispatch(callbacks, source, next, tail);
    if p in callbacks {
      assert Dispatch(callbacks, source, destination, prefix) == Run(before.outcome, [p] + before.invoked);
      assert Dispatch(callbacks, source, destination, properties) == Run(run.outcome, [p] + run.invoked);
      assert [p] + (before.invoked + [tail[k]]) == ([p] + before.invoked) + [tail[k]];
    } else {
      assert Dispatch(callbacks, source, destination, prefix) == before;
      assert Dispatch(callbacks, source, destination, properties) == run;
    }
  }

  lemma {:induction false} AbortedAtFailingCallback<S, D>(callbacks: map<string, Callback<S, D>>, source: S,
                                                        destination: D, properties: seq<string>)
    requires Dispatch(callbacks, source, destination, properties).outcome.Aborted?
    ensures exists k :: 0 <= k < |properties| && AbortsAt(callbacks, source, destination, properties, k)
    decreases |properties|
  {
    var p := properties[0];
    var tail := properties[1..];
    if p !in callbacks {
      AbortedAtFailingCallback(callbacks, source, destination, tail);
      var k :| 0 <= k < |tail| && AbortsAt(callbacks, source, destination, tail, k);
      AbortsAtAfterFirst(callbacks, source, destination, destination, properties, k);
    } else {
      match callbacks[p](source, destination)
      case Returned(d) =>
        AbortedAtFailingCallback(callbacks, source, d, tail);
        var k :| 0 <= k < |tail| && AbortsAt(callbacks, source, d, tail, k);
        AbortsAtAfterFirst(callbacks, source, destination, d, properties, k);
      case Threw(_, _) =>
        assert properties[..0] == [];
        assert AbortsAt(callbacks, source, destination, properties, 0);
    }
  }

  /** Applying the names `first + second` is applying `first`, then, unless a
      callback threw, applying `second` to the destination `first` left; after a
      throw nothing of `second` runs. */
  lemma {:induction false} DispatchAppend<S, D>(callbacks: map<string, Callback<S, D>>, source: S, destination: D,
                                              first: seq<string>, second: seq<string>)
    ensures var run := Dispatch(callbacks, source, destination, first);
            Dispatch(callbacks, source, destination, first + second) ==
              match run.outcome
              case Completed(d) =>
                var rest := Dispatch(callbacks, source, d, second);
                Run(rest.outcome, run.invoked + rest.invoked)
              case Aborted(_, _) => run
    decreases |first|
  {
    if first == [] {
      assert first + second == second;
    } else {
      var p := first[0];
      assert (first + second)[0] == p && (first + second)[1..] == first[1..] + second;
      if p !in callbacks {
        DispatchAppend(callbacks, source, destination, first[1..], second);
      } else {
        match callbacks[p](source, destination)
        case Returned(d) =>
          DispatchAppend(callbacks, source, d, first[1..], second);
        case Threw(_, _) =>
      }
    }
  }

  /** Present names without a callback are skipped: dropping them changes
      nothing. */
  lemma {:induction false} UnregisteredNamesSkipped<S, D>(callbacks: map<string, Callback<S, D>>, source: S,
                                                        destination: D, properties: seq<string>)
    ensures Dispatch(callbacks, source, destination, properties) ==
            Dispatch(callbacks, source, destination, Filter(properties, callbacks.Keys))
    decreases |properties|
  {
    if properties != [] {
      var p := properties[0];
      var f := Filter(properties[1..], callbacks.Keys);
      if p !in callbacks {
        UnregisteredNamesSkipped(callbacks, source, destination, properties[1..]);
      } else {
        assert ([p] + f)[0] == p && ([p] + f)[1..] == f;
        match callbacks[p](source, destination)
        case Returned(d) =>
          UnregisteredNamesSkipped(callbacks, source, d, properties[1..]);
        case Threw(_, _) =>
      }
    }
  }

  /** Only the callbacks of present names matter: two registries that agree on
      every present name produce the same application. */
  lemma {:induction false} OnlyPresentNamesMatter<S, D>(callbacks: map<string, Callback<S, D>>,
                                                      others: map<string, Callback<S, D>>, source: S,
                                                      destination: D, properties: seq<string>)
    requires forall i :: 0 <= i < |properties| ==> (properties[i] in callbacks <==> properties[i] in others)
    requires forall i :: 0 <= i < |properties| && properties[i] in callbacks ==>
                           callbacks[properties[i]] == others[properties[i]]
    ensures Dispatch(callbacks, source, destination, properties) == Dispatch(others, source, destination, properties)
    decreases |properties|
  {
    if properties != [] {
      var p := properties[0];
      assert p == properties[0];
      if p !in callbacks {
        OnlyPresentNamesMatter(callbacks, others, source, destination, properties[1..]);
      } else {
        match callbacks[p](source, destination)
        case Returned(d) =>
          OnlyPresentNamesMatter(callbacks, others, source, d, properties[1..]);
        case Threw(_, _) =>
      }
    }
  }

  /** If every callback of a present name keeps a property of the destination,
      whether it returns or throws, the application keeps it too: a field that
      no present callback writes is left as it was. */
  lemma {:induction false} DispatchPreserves<S, D>(callbacks: map<string, Callback<S, D>>, source: S,
                                                 destination: D, properties: seq<string>, keeps: D -> bool)
    requires keeps(destination)
    requires forall i, d :: 0 <= i < |properties| && properties[i] in callbacks && keeps(d) ==>
                              keeps(callbacks[properties[i]](source, d).dest)
    ensures keeps(Dispatch(callbacks, source, destination, properties).outcome.dest)
    decreases |properties|
  {
    if properties != [] {
      var p := properties[0];
      assert p == properties[0];
      if p !in callbacks {
        DispatchPreserves(callbacks, source, destination, properties[1..], keeps);
      } else {
        match callbacks[p](source, destination)
        case Returned(d) =>
          DispatchPreserves(callbacks, source, d, properties[1..], keeps);
        case Threw(_, _) =>
      }
    }
  }

  /** The runtime names of a sequence of properties, in order. */
  function Names(properties: seq<PropertyInfo>): (r: seq<string>)
    ensures |r| == |properties|
    ensures forall i :: 0 <= i < |properties| ==> r[i] == properties[i].name
  {
    if properties == [] then [] else [properties[0].name] + Names(properties[1..])
  }

  // ---------------------------------------------------------------------------
  // The dispatcher

  /** A partial updater from sources of type S to destinations of type D. */
  class Updater<S, D> {
    /** The registered callbacks, by property name. */
    var callbacks: map<string, Callback<S, D>>

    constructor ()
      ensures callbacks == map[]
    {
      callbacks := map[];
    }

    /** Registers `callback` under `memberName`, replacing any callback already
        registered under that name, and returns this updater for chaining. */
    method Register(memberName: string, callback: Callback<S, D>) returns (self: Updater<S, D>)
      modifies this
      ensures self == this
      ensures callbacks == old(callbacks)[memberName := callback]
      ensures callbacks.Keys == old(callbacks).Keys + {memberName}
      ensures forall n :: n in old(callbacks) && n != memberName ==> callbacks[n] == old(callbacks)[n]
    {
      callbacks := callbacks[memberName := callback];
      self := this;
    }

    /** Registers `callback` under the property an accessor expression names,
        exactly as `Register` would under that name; an accessor of any other
        shape fails and leaves the registry as it was. */
    method RegisterProperty(propertyExpression: Expr, callback: Callback<S, D>)
      returns (r: Result<Updater<S, D>, AccessorError>)
      modifies this
      ensures match ResolveAccessor(propertyExpression)
              case Success(property) =>
                r == Success(this) && callbacks == old(callbacks)[property.name := callback]
              case Failure(e) =>
                r == Failure(e) && callbacks == old(callbacks)
    {
      match ResolveAccessor(propertyExpression)
      case Success(property) =>
        var self := Register(property.name, callback);
        r := Success(self);
      case Failure(e) =>
        r := Failure(e);
    }

    /** Applies a partial update: runs, in the order of `properties`, the
        callback of every name that has one, and stops at the first callback
        that throws. The registry is only read. `trace` is the names whose
        callbacks ran. */
    method Apply(source: S, destination: D, properties: seq<string>)
      returns (outcome: Outcome<D>, ghost trace: seq<string>)
      ensures outcome == Dispatch(callbacks, source, destination, properties).outcome
      ensures trace == Dispatch(callbacks, source, destination, properties).invoked
      ensures trace <= Filter(properties, callbacks.Keys)
      ensures outcome.Completed? ==> trace == Filter(properties, callbacks.Keys)
    {
      ghost var run := Dispatch(callbacks, source, destination, properties);
      var d := destination;
      var i := 0;
      trace := [];
      while i < |properties|
        invariant 0 <= i <= |properties|
        invariant run.outcome == Dispatch(callbacks, source, d, properties[i..]).outcome
        invariant run.invoked == trace + Dispatch(callbacks, source, d, properties[i..]).invoked
      {
        var property := properties[i];
        DispatchFrom(callbacks, source, d, properties, i);
        if property in callbacks {
          var callback := callbacks[property];
          match callback(source, d)
          case Returned(d') =>
            ghost var rest := Dispatch(callbacks, source, d', properties[i + 1..]).invoked;
            assert trace + ([property] + rest) == (trace + [property]) + rest;
            d := d';
            trace := trace + [property];
          case Threw(e, d') =>
            outcome, trace := Aborted(e, d'), trace + [property];
            InvokedIsPrefixOfFiltered(callbacks, source, destination, properties);
            return;
        }
        i := i + 1;
      }
      assert properties[i..] == [];
      outcome := Completed(d);
      InvokedIsPrefixOfFiltered(callbacks, source, destination, properties);
      CompletedInvokesFiltered(callbacks, source, destination, properties);
    }

    /** The overload over property descriptions: the same as `Apply` on their
        names. */
    method ApplyProperties(source: S, destination: D, properties: seq<PropertyInfo>)
      returns (outcome: Outcome<D>, ghost trace: seq<string>)
      ensures outcome == Dispatch(callbacks, source, destination, Names(properties)).outcome
      ensures trace == Dispatch(callbacks, source, destination, Names(properties)).invoked
    {
      outcome, trace := Apply(source, destination, Names(properties));
    }
  }
}
