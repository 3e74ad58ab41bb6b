/** `VMCollection`: the base of the view-model collections, which tracks
    whether it is subscribed to data changes. */
module ViewModel {
  /** The subscription after `_SetSubscribe(subscribe)` from `subscribed`,
      and whether it changed. */
  function SetSubscribeSpec(subscribed: bool, subscribe: bool): (r: (bool, bool))
    ensures r.0 == subscribe
    ensures r.1 <==> subscribed != subscribe
  {
    if subscribed != subscribe then (subscribe, true) else (subscribed, false)
  }

  /** Setting the same subscription twice reports no change the second time. */
  lemma SetSubscribeTwice(subscribed: bool, subscribe: bool)
    ensures var (s1, _) := SetSubscribeSpec(subscribed, subscribe);
      SetSubscribeSpec(s1, subscribe) == (subscribe, false)
  {
  }

  /** `Dispose` twice is `Dispose` once. */
  lemma DisposeIdempotent(subscribed: bool)
    ensures var (s1, _) := SetSubscribeSpec(subscribed, false);
      SetSubscribeSpec(s1, false) == (s1, false) && !s1
  {
  }

  class VMCollection {
    /** `mSubscribe`. */
    var subscribed: bool

    /** The constructor subscribes: `mSubscribe` starts false and is set by
        `_SetSubscribe(true)`. */
    constructor()
      ensures subscribed
    {
      subscribed := false;
      new;
      var _ := SetSubscribe(true);
    }

    /** `_SetSubscribe(subscribe)`: stores the subscription and returns
        whether it changed. */
    method SetSubscribe(subscribe: bool) returns (changed: bool)
      modifies this
      ensures (subscribed, changed) == SetSubscribeSpec(old(subscribed), subscribe)
    {
      if subscribed != subscribe {
        subscribed := subscribe;
        return true;
      }
      return false;
    }

    /** `Dispose()`: unsubscribes; a repeated call changes nothing. */
    method Dispose()
      modifies this
      ensures !subscribed
      ensures !old(subscribed) ==> subscribed == old(subscribed)
    {
      var _ := SetSubscribe(false);
    }
  }
}
