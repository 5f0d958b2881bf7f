/**
 One popover at a time: the controller that knows the current one, and the life of each
 popover from creation through at most one showing to its end.
 */
module FloatingPopover {
  import opened Prelude

  /** `registered` while the popover still holds the controller's release function. */
  datatype Life = Life(visible: bool, terminated: bool, registered: bool)

  datatype State<T> = State(popovers: map<T, Life>, current: Option<T>)

  datatype Event<T> = Create(p: T) | Show(p: T) | Hide(p: T) | Destroy(p: T) | Close

  predicate Enabled<T>(s: State<T>, e: Event<T>) {
    match e
    case Create(p) => p !in s.popovers
    case Close => true
    case _ => e.p in s.popovers
  }

  predicate CurrentExists<T>(s: State<T>) {
    s.current.Some? ==> s.current.value in s.popovers
  }

  function Released<T(==)>(s: State<T>, p: T): State<T> {
    if s.current == Some(p) then s.(current := None) else s
  }

  function Hidden<T(==)>(s: State<T>, p: T): State<T>
    requires p in s.popovers
  {
    if !s.popovers[p].visible then s
    else
      var s' := s.(popovers := s.popovers[p := Life(false, true, false)]);
      if s.popovers[p].registered then Released(s', p) else s'
  }

  function Destroyed<T(==)>(s: State<T>, p: T): State<T>
    requires p in s.popovers
  {
    var s' := Hidden(s, p);
    s'.(popovers := s'.popovers[p := s'.popovers[p].(terminated := true)])
  }

  function Shown<T(==)>(s: State<T>, p: T): State<T>
    requires p in s.popovers
  {
    if s.popovers[p].visible || s.popovers[p].terminated then s
    else s.(popovers := s.popovers[p := s.popovers[p].(visible := true)])
  }

  function Closed<T(==)>(s: State<T>): State<T>
    requires CurrentExists(s)
  {
    if s.current.None? then s else Hidden(s.(current := None), s.current.value)
  }

  /** The new popover becomes current and whatever was current is destroyed. */
  function Adopted<T(==)>(s: State<T>, p: T): (s': State<T>)
    requires CurrentExists(s) && p !in s.popovers
    ensures p in s'.popovers
  {
    var s' := s.(popovers := s.popovers[p := Life(false, false, false)], current := Some(p));
    if s.current.Some? then Destroyed(s', s.current.value) else s'
  }

  function Created<T(==)>(s: State<T>, p: T): State<T>
    requires CurrentExists(s) && p !in s.popovers
  {
    var s' := Adopted(s, p);
    s'.(popovers := s'.popovers[p := s'.popovers[p].(registered := true)])
  }

  function Step<T(==)>(s: State<T>, e: Event<T>): (s': State<T>)
    requires CurrentExists(s) && Enabled(s, e)
    ensures CurrentExists(s')
  {
    match e
    case Create(p) => Created(s, p)
    case Show(p) => Shown(s, p)
    case Hide(p) => Hidden(s, p)
    case Destroy(p) => Destroyed(s, p)
    case Close => Closed(s)
  }

  predicate Legal<T(==)>(s: State<T>, es: seq<Event<T>>)
    requires CurrentExists(s)
    decreases |es|
  {
    es == [] || (Enabled(s, es[0]) && Legal(Step(s, es[0]), es[1..]))
  }

  function Run<T(==)>(s: State<T>, es: seq<Event<T>>): (s': State<T>)
    requires CurrentExists(s) && Legal(s, es)
    ensures CurrentExists(s')
    decreases |es|
  {
    if es == [] then s else Run(Step(s, es[0]), es[1..])
  }

  // ----- a life ends once -----

  /** Nothing ended is visible. */
  predicate EndedIsHidden<T>(s: State<T>) {
    forall p | p in s.popovers && s.popovers[p].terminated :: !s.popovers[p].visible
  }

  lemma StepKeepsEnded<T>(s: State<T>, e: Event<T>)
    requires CurrentExists(s) && Enabled(s, e) && EndedIsHidden(s)
    ensures EndedIsHidden(Step(s, e))
    ensures forall p | p in s.popovers && s.popovers[p].terminated ::
              p in Step(s, e).popovers && Step(s, e).popovers[p].terminated
  {}

  lemma {:induction false} EndedStaysHidden<T>(s: State<T>, es: seq<Event<T>>, p: T)
    requires CurrentExists(s) && Legal(s, es) && EndedIsHidden(s)
    requires p in s.popovers && s.popovers[p].terminated
    ensures p in Run(s, es).popovers && !Run(s, es).popovers[p].visible
    decreases |es|
  {
    if es != [] {
      StepKeepsEnded(s, es[0]);
      EndedStaysHidden(Step(s, es[0]), es[1..], p);
    }
  }

  /** A step that hides a visible popover, whoever takes it, and a destroy of any other. */
  predicate Ends<T(==)>(s: State<T>, e: Event<T>, p: T)
    requires CurrentExists(s) && p in s.popovers
  {
    match e
    case Create(_) => s.current == Some(p)
    case Show(_) => false
    case Hide(q) => p == q && s.popovers[p].visible
    case Destroy(q) => p == q
    case Close => s.current == Some(p) && s.popovers[p].visible
  }

  lemma EndingEnds<T>(s: State<T>, e: Event<T>, p: T)
    requires CurrentExists(s) && Enabled(s, e) && p in s.popovers && EndedIsHidden(s)
    ensures p in Step(s, e).popovers
    ensures Step(s, e).popovers[p].terminated <==> s.popovers[p].terminated || Ends(s, e, p)
  {}

  /** A popover hidden, closed while visible, evicted or destroyed is never visible again. */
  lemma NeverVisibleAgain<T>(s: State<T>, e: Event<T>, es: seq<Event<T>>, p: T)
    requires CurrentExists(s) && Enabled(s, e) && EndedIsHidden(s) && p in s.popovers && Ends(s, e, p)
    requires Legal(Step(s, e), es)
    ensures p in Run(Step(s, e), es).popovers && !Run(Step(s, e), es).popovers[p].visible
  {
    EndingEnds(s, e, p);
    StepKeepsEnded(s, e);
    EndedStaysHidden(Step(s, e), es, p);
  }

  // ----- the release function -----

  /** Ending a popover that is not current leaves the current one in place. */
  lemma EvictedReleaseIsHarmless<T>(s: State<T>, p: T, q: T)
    requires p in s.popovers && s.current == Some(q) && p != q
    ensures Hidden(s, p).current == Some(q) && Destroyed(s, p).current == Some(q)
  {}

  /** Destroying the current popover frees the controller exactly when it had been shown and kept its release. */
  lemma DestroyFreesExactlyWhen<T>(s: State<T>, p: T)
    requires p in s.popovers && s.current == Some(p)
    ensures Destroyed(s, p).current.None? <==> s.popovers[p].visible && s.popovers[p].registered
  {}

  // ----- every living popover is the current one -----

  predicate LivingIsCurrent<T(==)>(s: State<T>) {
    forall p | p in s.popovers && !s.popovers[p].terminated :: s.current == Some(p) && s.popovers[p].registered
  }

  predicate Inv<T(==)>(s: State<T>) {
    CurrentExists(s) && EndedIsHidden(s) && LivingIsCurrent(s)
  }

  /** A close that hits a popover created but never shown. */
  predicate ClosesUnshown<T(==)>(s: State<T>, e: Event<T>)
    requires CurrentExists(s)
  {
    e.Close? && s.current.Some? && !s.popovers[s.current.value].terminated && !s.popovers[s.current.value].visible
  }

  /** A step keeps every living popover current exactly when it is not a close of a never-shown one. */
  lemma StepKeepsInvExactlyWhen<T>(s: State<T>, e: Event<T>)
    requires Inv(s) && Enabled(s, e)
    ensures Inv(Step(s, e)) <==> !ClosesUnshown(s, e)
  {}

  predicate AlwaysInv<T(==)>(s: State<T>, es: seq<Event<T>>)
    requires CurrentExists(s) && Legal(s, es)
    decreases |es|
  {
    Inv(s) && (es == [] || AlwaysInv(Step(s, es[0]), es[1..]))
  }

  predicate NeverClosesUnshown<T(==)>(s: State<T>, es: seq<Event<T>>)
    requires CurrentExists(s) && Legal(s, es)
    decreases |es|
  {
    es == [] || (!ClosesUnshown(s, es[0]) && NeverClosesUnshown(Step(s, es[0]), es[1..]))
  }

  /** Over whole runs: every living popover is current throughout exactly when no close hit a never-shown one. */
  lemma {:induction false} LivingIsCurrentThroughout<T>(s: State<T>, es: seq<Event<T>>)
    requires Inv(s) && Legal(s, es)
    ensures AlwaysInv(s, es) <==> NeverClosesUnshown(s, es)
    decreases |es|
  {
    if es != [] {
      StepKeepsInvExactlyWhen(s, es[0]);
      if Inv(Step(s, es[0])) {
        LivingIsCurrentThroughout(Step(s, es[0]), es[1..]);
      } else {
        assert !AlwaysInv(Step(s, es[0]), es[1..]);
      }
    }
  }

  /** So at most one popover is visible. */
  lemma {:induction false} AtMostOneVisible<T>(s: State<T>, es: seq<Event<T>>, p: T, q: T)
    requires Inv(s) && Legal(s, es) && NeverClosesUnshown(s, es)
    requires p in Run(s, es).popovers && q in Run(s, es).popovers
    requires Run(s, es).popovers[p].visible && Run(s, es).popovers[q].visible
    ensures p == q
    decreases |es|
  {
    if es != [] {
      StepKeepsInvExactlyWhen(s, es[0]);
      AtMostOneVisible(Step(s, es[0]), es[1..], p, q);
    } else {
      assert !s.popovers[p].terminated && !s.popovers[q].terminated;
    }
  }

  /** Without that condition two can be visible at once. */
  lemma TwoVisible<T>(p: T, q: T)
    requires p != q
    ensures var s := Shown(Shown(Created(Closed(Created(State(map[], None), p)), q), p), q);
            s.popovers[p].visible && s.popovers[q].visible
  {}

  // ----- the objects -----

  class PopoverController {
    var current: Popover?
    ghost var all: set<Popover>

    ghost predicate Valid()
      reads this, all
    {
      (current != null ==> current in all) && forall p | p in all :: p.controller == this
    }

    ghost function View(): State<Popover>
      reads this, all
    {
      var lives: map<Popover, Life> := map p: Popover | p in all :: p.LifeNow();
      if current == null then State.State(lives, None)
      else
        var p: Popover := current;
        State.State(lives, Some(p))
    }

    constructor ()
      ensures Valid() && all == {} && View() == State(map[], None)
    {
      current, all := null, {};
    }

    /** What the function returned by `Adopt` does. */
    method Release(popover: Popover)
      modifies this`current
      ensures current == if old(current) == popover then null else old(current)
    {
      if current == popover {
        current := null;
      }
    }

    method Adopt(popover: Popover)
      requires Valid() && popover.controller == this && popover !in all && popover.LifeNow() == Life(false, false, false)
      modifies this, all
      ensures Valid() && all == old(all) + {popover}
      ensures View() == Adopted(old(View()), popover)
      ensures popover.LifeNow() == old(popover.LifeNow())
    {
      var previous := current;
      current, all := popover, all + {popover};
      assert View().popovers == old(View()).popovers[popover := Life(false, false, false)];
      if previous != null && previous != popover {
        previous.Destroy();
      }
    }

    method CloseCurrent()
      requires Valid()
      modifies this, all
      ensures Valid() && all == old(all)
      ensures CurrentExists(old(View())) && View() == Closed(old(View()))
    {
      if current == null {
        return;
      }
      var popover := current;
      current := null;
      assert View() == old(View()).(current := None);
      popover.Hide();
    }
  }

  class Popover {
    const controller: PopoverController
    var visible: bool
    var terminated: bool
    var registered: bool

    ghost function LifeNow(): Life
      reads this
    {
      Life(visible, terminated, registered)
    }

    constructor (controller: PopoverController)
      requires controller.Valid()
      modifies controller, controller.all
      ensures this.controller == controller && controller.Valid() && controller.all == old(controller.all) + {this}
      ensures CurrentExists(old(controller.View())) && this !in old(controller.all)
      ensures controller.View() == Created(old(controller.View()), this)
    {
      this.controller := controller;
      visible, terminated, registered := false, false, false;
      new;
      controller.Adopt(this);
      label Adopted:
      registered := true;
      assert controller.View().popovers == old@Adopted(controller.View()).popovers[this := LifeNow()];
    }

    method Hide()
      requires controller.Valid() && this in controller.all
      modifies this, controller`current
      ensures controller.Valid()
      ensures controller.View() == Hidden(old(controller.View()), this)
    {
      if !visible {
        return;
      }
      visible, terminated := false, true;
      if registered {
        controller.Release(this);
        registered := false;
      }
      assert controller.View().popovers == old(controller.View()).popovers[this := LifeNow()];
    }

    method Show()
      requires controller.Valid() && this in controller.all
      modifies this
      ensures controller.Valid()
      ensures controller.View() == Shown(old(controller.View()), this)
    {
      if visible || terminated {
        return;
      }
      visible := true;
      assert controller.View().popovers == old(controller.View()).popovers[this := LifeNow()];
    }

    method Destroy()
      requires controller.Valid() && this in controller.all
      modifies this, controller`current
      ensures controller.Valid()
      ensures controller.View() == Destroyed(old(controller.View()), this)
    {
      Hide();
      label AfterHide:
      terminated := true;
      assert controller.View().popovers == old@AfterHide(controller.View()).popovers[this := LifeNow()];
    }
  }
}
