/**
 * The emptiness tests over possibly-null enumerables, and Touch, which runs an
 * action on each item as the items are enumerated.
 */
module EnumerableExtensions {
  import opened Clr

  /**
   * An IEnumerable: one that is an ICollection (its Count is known) or any
   * other, enumerated lazily; both yield `items`.
   */
  datatype Enumerable<T> = Collection(items: seq<T>) | Lazy(items: seq<T>)

  /** Enumerable.Any(predicate): some item passes the test. */
  function Any<T>(items: seq<T>, test: T -> bool): (r: bool)
    ensures r <==> exists i :: 0 <= i < |items| && test(items[i])
  {
    if |items| == 0 then false else test(items[0]) || Any(items[1..], test)
  }

  /** HasSome(): false for null, Count > 0 for a collection, Any() otherwise. */
  function HasSome<T>(enumerable: Option<Enumerable<T>>): (r: bool)
    ensures r <==> enumerable.Some? && |enumerable.value.items| > 0
  {
    if enumerable.None? then false
    else if enumerable.value.Collection? then |enumerable.value.items| > 0
    else Any(enumerable.value.items, (item: T) => true)
  }

  /** HasSome(predicate): a null predicate throws first; a null enumerable has none. */
  function HasSomeWhere<T>(enumerable: Option<Enumerable<T>>, test: Option<T -> bool>): (r: Outcome<bool>)
    ensures test.None? ==> r == Raised(ArgumentNullException("predicate"))
    ensures test.Some? ==> r.Done?
    ensures test.Some? ==>
              (r.value <==> enumerable.Some? && exists i :: 0 <= i < |enumerable.value.items| && test.value(enumerable.value.items[i]))
  {
    if test.None? then Raised(ArgumentNullException("predicate"))
    else if enumerable.None? then Done(false)
    else Done(Any(enumerable.value.items, test.value))
  }

  /** HasSomeNotNull(): some item is not null. */
  function HasSomeNotNull<T>(enumerable: Option<Enumerable<Option<T>>>): (r: bool)
    ensures r <==> enumerable.Some? && exists i :: 0 <= i < |enumerable.value.items| && enumerable.value.items[i].Some?
  {
    HasSomeWhere(enumerable, Some((item: Option<T>) => item.Some?)).value
  }

  /** HasNone(): true for null, Count == 0 for a collection, !Any() otherwise. */
  function HasNone<T>(enumerable: Option<Enumerable<T>>): (r: bool)
    ensures r <==> enumerable.None? || |enumerable.value.items| == 0
  {
    if enumerable.None? then true
    else if enumerable.value.Collection? then |enumerable.value.items| == 0
    else !Any(enumerable.value.items, (item: T) => true)
  }

  /** HasNone(predicate): a null predicate throws first; a null enumerable has none. */
  function HasNoneWhere<T>(enumerable: Option<Enumerable<T>>, test: Option<T -> bool>): (r: Outcome<bool>)
    ensures test.None? ==> r == Raised(ArgumentNullException("predicate"))
    ensures test.Some? ==> r.Done?
    ensures test.Some? ==>
              (r.value <==> enumerable.None? || forall i :: 0 <= i < |enumerable.value.items| ==> !test.value(enumerable.value.items[i]))
  {
    if test.None? then Raised(ArgumentNullException("predicate"))
    else if enumerable.None? then Done(true)
    else Done(!Any(enumerable.value.items, test.value))
  }

  /** HasNoneNotNull(): every item is null. */
  function HasNoneNotNull<T>(enumerable: Option<Enumerable<Option<T>>>): (r: bool)
    ensures r <==> enumerable.None? || forall i :: 0 <= i < |enumerable.value.items| ==> enumerable.value.items[i].None?
  {
    HasNoneWhere(enumerable, Some((item: Option<T>) => item.Some?)).value
  }

  /** Each None test is the exact negation of the matching Some test, null included, and a collection and a lazy enumerable of the same items agree. */
  lemma NoneIsNotSome<T>(enumerable: Option<Enumerable<T>>, test: Option<T -> bool>, items: seq<Option<T>>)
    ensures HasNone(enumerable) == !HasSome(enumerable)
    ensures HasNoneWhere(enumerable, test) == match HasSomeWhere(enumerable, test)
                                                   case Done(b) => Done(!b)
                                                   case Raised(e) => Raised(e)
    ensures HasNoneNotNull(Some(Collection(items))) == !HasSomeNotNull(Some(Lazy(items)))
    ensures HasSome(Some(Collection(items))) == HasSome(Some(Lazy(items)))
  {
  }

  /** What enumerating Touch does, in order: the action runs on an item, then the item is yielded. */
  datatype TouchEvent<T> = Acted(item: T) | Yielded(item: T)

  /** The events of enumerating Touch over `items` to the end. */
  function TouchTrace<T>(items: seq<T>): seq<TouchEvent<T>>
  {
    if |items| == 0 then [] else TouchTrace(items[..|items| - 1]) + [Acted(items[|items| - 1]), Yielded(items[|items| - 1])]
  }

  /** The items a trace yields, in order. */
  function YieldedItems<T>(events: seq<TouchEvent<T>>): seq<T>
  {
    if |events| == 0 then []
    else YieldedItems(events[..|events| - 1]) + if events[|events| - 1].Yielded? then [events[|events| - 1].item] else []
  }

  /**
   * Touch yields the items unchanged and in order, and runs the action once
   * per item, just before yielding that item.
   */
  lemma {:induction false} TouchTraceShape<T>(items: seq<T>)
    ensures |TouchTrace(items)| == 2 * |items|
    ensures forall i :: 0 <= i < |items| ==> TouchTrace(items)[2 * i] == Acted(items[i]) && TouchTrace(items)[2 * i + 1] == Yielded(items[i])
    ensures YieldedItems(TouchTrace(items)) == items
  {
    if |items| > 0 {
      var front := items[..|items| - 1];
      TouchTraceShape(front);
      var trace := TouchTrace(items);
      assert trace[..|trace| - 1] == TouchTrace(front) + [Acted(items[|items| - 1])];
      assert trace[..|trace| - 1][..|trace| - 2] == TouchTrace(front);
      assert front + [items[|items| - 1]] == items;
    }
  }

  /**
   * Enumerating Touch(enumerable, action) to the end. Being an iterator, Touch
   * checks its arguments only when enumeration starts: a null enumerable or
   * action throws then, before any action runs.
   */
  method Touch<T>(enumerable: Option<Enumerable<T>>, action: Option<T -> ()>)
    returns (yielded: Outcome<seq<T>>, events: seq<TouchEvent<T>>)
    ensures enumerable.None? ==> yielded == Raised(ArgumentNullException("enumerable")) && events == []
    ensures enumerable.Some? && action.None? ==> yielded == Raised(ArgumentNullException("action")) && events == []
    ensures enumerable.Some? && action.Some? ==> yielded == Done(enumerable.value.items)
    ensures enumerable.Some? && action.Some? ==> events == TouchTrace(enumerable.value.items)
  {
    if enumerable.None? {
      return Raised(ArgumentNullException("enumerable")), [];
    }
    if action.None? {
      return Raised(ArgumentNullException("action")), [];
    }
    var items := enumerable.value.items;
    var output: seq<T> := [];
    events := [];
    var i := 0;
    while i < |items|
      invariant 0 <= i <= |items|
      invariant output == items[..i]
      invariant events == TouchTrace(items[..i])
    {
      var item := items[i];
      var _ := action.value(item);
      events := events + [Acted(item)];
      output := output + [item];
      events := events + [Yielded(item)];
      assert items[..i + 1][..i] == items[..i];
      i := i + 1;
    }
    assert items[..i] == items;
    return Done(output), events;
  }
}
