/**
 * The connectivity and update state of the client (`useOfflineState`) and
 * the choice the `OfflineIndicator` banner makes from it.
 *
 * The browser is an input: whether a controlling service worker exists, the
 * outcome of `navigator.serviceWorker.register`, and worker state changes.
 * Messages posted to workers and page reloads are recorded in fields.
 */
module OfflineState {
  import opened Wrappers

  /** An opaque service worker identity. */
  type WorkerId = nat

  datatype Message = SyncPending | SkipWaiting(worker: WorkerId)

  /** The outcome of `register('/service-worker.js', {scope: '/'})`. */
  datatype Registration = RegisterFailed | Registered(waiting: Option<WorkerId>)

  class OfflineStateHook {
    var isOnline: bool
    var isSupported: bool
    var isReady: bool
    var needsUpdate: bool
    /** `swWaitingWorker` */
    var waitingWorker: Option<WorkerId>
    /** Whether a registration succeeded (so the `updatefound` listener exists). */
    var registered: bool
    /** Messages posted with `postMessage`, oldest first. */
    var posted: seq<Message>
    /** Whether `window.location.reload()` was called. */
    var reloaded: bool

    /** An update is only ever flagged together with a known waiting worker and a ready registration. */
    ghost predicate Valid()
      reads this
    {
      && (needsUpdate ==> waitingWorker.Some? && isReady)
      && (waitingWorker.Some? ==> registered)
      && (isReady ==> registered)
    }

    /** The initial state: `navigator.onLine`, not ready, no update. */
    constructor (onLine: bool, serviceWorkerInNavigator: bool)
      ensures Valid()
      ensures isOnline == onLine && isSupported == serviceWorkerInNavigator
      ensures !isReady && !needsUpdate && waitingWorker.None? && !registered
      ensures posted == [] && !reloaded
    {
      isOnline := onLine;
      isSupported := serviceWorkerInNavigator;
      isReady, needsUpdate := false, false;
      waitingWorker := None;
      registered := false;
      posted, reloaded := [], false;
    }

    /** The `online` event: back online, and a controller (if any) is asked to sync. */
    method HandleOnline(hasController: bool)
      requires Valid()
      modifies this`isOnline, this`posted
      ensures Valid() && isOnline
      ensures posted == old(posted) + (if isSupported && hasController then [SyncPending] else [])
    {
      isOnline := true;
      if isSupported && hasController {
        posted := posted + [SyncPending];
      }
    }

    /** The `offline` event changes only `isOnline`. */
    method HandleOffline()
      requires Valid()
      modifies this`isOnline
      ensures Valid() && !isOnline
    {
      isOnline := false;
    }

    /**
     * `registerSW`: nothing happens when service workers are unsupported or
     * registration fails; a waiting worker raises the update flag; every
     * successful registration ends ready.
     */
    method RegisterSW(outcome: Registration)
      requires Valid()
      modifies this`isReady, this`needsUpdate, this`waitingWorker, this`registered
      ensures Valid()
      ensures !isSupported || outcome.RegisterFailed? ==>
        isReady == old(isReady) && needsUpdate == old(needsUpdate)
        && waitingWorker == old(waitingWorker) && registered == old(registered)
      ensures isSupported && outcome.Registered? ==> registered && isReady
      ensures isSupported && outcome.Registered? && outcome.waiting.Some? ==>
        needsUpdate && waitingWorker == outcome.waiting
      ensures isSupported && outcome.Registered? && outcome.waiting.None? ==>
        needsUpdate == old(needsUpdate) && waitingWorker == old(waitingWorker)
    {
      if !isSupported {
        return;
      }
      match outcome
      case RegisterFailed =>
      case Registered(waiting) =>
        registered := true;
        if waiting.Some? {
          waitingWorker := waiting;
          needsUpdate, isReady := true, true;
        }
        isReady := true;
    }

    /**
     * A new worker found by `updatefound` changed state. Reaching `installed`
     * while a controller exists marks an update; a first install (no
     * controller) does not.
     */
    method OnWorkerStateChange(worker: WorkerId, newState: string, hasController: bool)
      requires Valid()
      modifies this`isReady, this`needsUpdate, this`waitingWorker
      ensures Valid()
      ensures registered && newState == "installed" && hasController ==>
        needsUpdate && isReady && waitingWorker == Some(worker)
      ensures !(registered && newState == "installed" && hasController) ==>
        needsUpdate == old(needsUpdate) && isReady == old(isReady) && waitingWorker == old(waitingWorker)
    {
      if registered && newState == "installed" && hasController {
        waitingWorker := Some(worker);
        needsUpdate, isReady := true, true;
      }
    }

    /** `updateApp`: with a waiting worker, tell it to skip waiting and reload; otherwise nothing. */
    method UpdateApp()
      requires Valid()
      modifies this`posted, this`reloaded
      ensures Valid()
      ensures old(waitingWorker).Some? ==> posted == old(posted) + [SkipWaiting(waitingWorker.value)] && reloaded
      ensures old(waitingWorker).None? ==> posted == old(posted) && reloaded == old(reloaded)
      ensures needsUpdate ==> posted == old(posted) + [SkipWaiting(waitingWorker.value)] && reloaded
    {
      if waitingWorker.Some? {
        posted := posted + [SkipWaiting(waitingWorker.value)];
        reloaded := true;
      }
    }
  }

  datatype Banner = NoBanner | OfflineBanner | UpdateBanner

  /** `OfflineIndicator`: nothing when online without an update; offline takes precedence over the update. */
  function Indicator(isOnline: bool, needsUpdate: bool): (b: Banner)
    ensures b == NoBanner <==> isOnline && !needsUpdate
    ensures b == OfflineBanner <==> !isOnline
    ensures b == UpdateBanner <==> isOnline && needsUpdate
  {
    if isOnline && !needsUpdate then NoBanner
    else if !isOnline then OfflineBanner
    else if needsUpdate then UpdateBanner
    else NoBanner
  }
}
