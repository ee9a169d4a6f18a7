/**
 * The vector-store service object (backend/app/services/milvus_service.py):
 * construction, create-if-absent set-up for either backend, insertion, search
 * dispatch, and the confirmation-guarded drop-and-recreate. The backend is an
 * oracle: its stored records are a ghost sequence, and whether a call raises is
 * given as a parameter.
 */
module MilvusService {
  import opened Wrappers
  import opened Config
  import opened UserModel
  import opened MilvusResults

  /** One stored entity: the raw embedding and its two text fields. */
  datatype Record = Record(embedding: seq<real>, name: string, registrationNumber: string)

  /**
   * Where a run of the initialisation raises: opening the client or connection,
   * creating an absent collection, (remote only) building the index of a
   * collection just created, or (remote only) loading it into memory.
   */
  datatype InitFault = NoFault | ConnectFails | CreateFails | IndexFails | LoadFails

  /**
   * Where `clear_all_data` raises before re-initialising: asking whether the
   * collection exists, releasing it from memory (remote only; the error is logged
   * and the drop goes ahead), or dropping it.
   */
  datatype ClearFault = ClearNoFault | HasCollectionFails | ReleaseFails | DropFails

  /** The backend's answer to a search call: hits per query vector, or an exception. */
  datatype SearchReply = Raised | Replied(hits: seq<seq<Hit>>)

  /** `clear_all_data` either raises ValueError for want of confirmation, or returns a bool. */
  datatype ClearOutcome = Refused | Cleared(ok: bool)

  /** `top_k or settings.top_k_results`: None and 0 take the default, any other value, negative included, passes. */
  function EffectiveTopK(topK: Option<int>, default: int): (k: int)
    ensures topK == None || topK == Some(0) ==> k == default
    ensures topK.Some? && topK.value != 0 ==> k == topK.value
  {
    match topK
    case Some(k) => if k != 0 then k else default
    case None => default
  }

  /** Whether an initialisation run with `fault` returns normally. */
  predicate InitSucceeds(mode: Mode, existed: bool, fault: InitFault) {
    match fault
    case NoFault => true
    case ConnectFails => false
    case CreateFails => existed
    case IndexFails => existed || mode == Local
    case LoadFails => mode == Local
  }

  class Service {
    const mode: Mode
    const collectionName: string
    const dimension: nat
    const threshold: real
    const defaultTopK: int

    /** `self.client` is set (local mode only). */
    var clientSet: bool
    /** `self.collection` is set (remote mode only). */
    var collectionSet: bool
    /** The backend holds a collection named `collectionName`. */
    var hasCollection: bool
    /** The remote collection is loaded into serving memory. */
    var loaded: bool
    /** The records of the collection. */
    ghost var store: seq<Record>

    /** Facts about the backend and the handles that hold in every state, also mid-initialisation. */
    ghost predicate Consistent()
      reads this
    {
      (!hasCollection ==> store == [] && !loaded) &&
      (mode == Local ==> !collectionSet && !loaded) &&
      (mode == Remote ==> !clientSet)
    }

    /** The object invariant once the constructor has returned. */
    ghost predicate Valid()
      reads this
    {
      Consistent() &&
      (mode == Local ==> clientSet) &&
      (mode == Remote ==> collectionSet)
    }

    /** The collection can serve a search: it exists and, on a remote server, is loaded. */
    predicate Ready()
      reads this
    {
      hasCollection && (mode == Remote ==> loaded)
    }

    /** `milvus_service.collection.describe()` returns: there is a collection handle and its collection exists. */
    predicate CanDescribe()
      reads this
    {
      collectionSet && hasCollection
    }

    /**
     * `__init__`: derives the collection name and dimension from the settings and
     * initialises the backend, creating the collection when it is absent. A failure
     * here propagates out of the constructor and is not modelled.
     */
    constructor (settings: Settings, preexisting: Option<seq<Record>>)
      ensures Valid() && Ready()
      ensures mode == (if IsLocalMode(settings) then Local else Remote)
      ensures collectionName == CollectionName(settings.faceModel)
      ensures dimension == EmbeddingDimension(settings.faceModel)
      ensures threshold == settings.similarityThreshold && defaultTopK == settings.topKResults
      ensures store == preexisting.GetOr([])
      ensures mode == Local ==> !CanDescribe()
    {
      mode := if IsLocalMode(settings) then Local else Remote;
      collectionName := CollectionName(settings.faceModel);
      dimension := EmbeddingDimension(settings.faceModel);
      threshold := settings.similarityThreshold;
      defaultTopK := settings.topKResults;
      clientSet, collectionSet := false, false;
      hasCollection, loaded := preexisting.Some?, false;
      store := preexisting.GetOr([]);
      new;
      var ok := InitializeConnection(NoFault);
    }

    /**
     * `_initialize_connection`: the set-up of the configured backend. A failure
     * leaves behind what the steps before it did.
     */
    method InitializeConnection(fault: InitFault) returns (ok: bool)
      requires Consistent()
      modifies this
      ensures Consistent()
      ensures old(Valid()) ==> Valid()
      ensures ok == InitSucceeds(mode, old(hasCollection), fault)
      ensures ok ==> Valid() && Ready()
      ensures store == old(store)
      ensures hasCollection == (old(hasCollection) || (fault != ConnectFails && fault != CreateFails))
      ensures mode == Local ==> clientSet == (old(clientSet) || fault != ConnectFails)
      ensures mode == Remote ==>
        collectionSet == (old(collectionSet) || (fault != ConnectFails && (old(hasCollection) || fault != CreateFails)))
      ensures loaded == (old(loaded) || (mode == Remote && ok))
    {
      if mode == Local {
        ok := SetupLocal(fault);
      } else {
        ok := SetupRemote(fault);
      }
    }

    /**
     * `_setup_local_milvus`: open the client, then create the collection only if it
     * is absent. A failure to open the client changes nothing; a failed creation
     * leaves the collection absent. The new collection is empty, so the records
     * never change.
     */
    method SetupLocal(fault: InitFault) returns (ok: bool)
      requires mode == Local && Consistent()
      modifies this
      ensures Consistent()
      ensures ok == InitSucceeds(mode, old(hasCollection), fault)
      ensures ok ==> clientSet && Ready()
      ensures clientSet == (old(clientSet) || fault != ConnectFails)
      ensures hasCollection == (old(hasCollection) || (fault != ConnectFails && fault != CreateFails))
      ensures store == old(store)
      ensures collectionSet == old(collectionSet) && loaded == old(loaded)
    {
      if fault == ConnectFails {
        return false;
      }
      clientSet := true;
      if !hasCollection {
        if fault == CreateFails {
          return false;
        }
        hasCollection, store := true, [];
      }
      ok := true;
    }

    /**
     * `_setup_remote_milvus`: connect; if the collection is absent, create it (the
     * handle is taken as it is created) and build its index; otherwise take a
     * handle on it; then load it. A failure leaves behind the steps before it: a
     * collection created without an index keeps its handle and is not loaded.
     */
    method SetupRemote(fault: InitFault) returns (ok: bool)
      requires mode == Remote && Consistent()
      modifies this
      ensures Consistent()
      ensures ok == InitSucceeds(mode, old(hasCollection), fault)
      ensures ok ==> collectionSet && Ready()
      ensures hasCollection == (old(hasCollection) || (fault != ConnectFails && fault != CreateFails))
      ensures collectionSet ==
        (old(collectionSet) || (fault != ConnectFails && (old(hasCollection) || fault != CreateFails)))
      ensures loaded == (old(loaded) || ok)
      ensures store == old(store)
      ensures clientSet == old(clientSet)
    {
      if fault == ConnectFails {
        return false;
      }
      if !hasCollection {
        if fault == CreateFails {
          return false;
        }
        hasCollection, store, collectionSet := true, [], true;
        if fault == IndexFails {
          return false;
        }
      }
      collectionSet := true;
      if fault == LoadFails {
        return false;
      }
      loaded := true;
      ok := true;
    }

    /**
     * `insert_embedding`: no check of the embedding's length; `accepted` is whether
     * the backend call returns (it raises when the collection is missing). True and
     * one more record exactly when the backend accepted it.
     */
    method InsertEmbedding(embedding: seq<real>, name: string, registrationNumber: string, accepted: bool)
      returns (ok: bool)
      requires Valid()
      modifies this`store
      ensures Valid()
      ensures ok == (hasCollection && accepted)
      ensures store == if ok then old(store) + [Record(embedding, name, registrationNumber)] else old(store)
    {
      if !hasCollection || !accepted {
        return false;
      }
      store := store + [Record(embedding, name, registrationNumber)];
      ok := true;
    }

    /**
     * What a search returns: nothing when the backend raises (which it does when
     * the collection is missing or not loaded), otherwise the processed reply.
     */
    function SearchOutcome(queryEmbedding: seq<real>, topK: Option<int>,
                           backend: (seq<real>, int) -> SearchReply): (results: seq<SearchResult>)
      reads this
      ensures !Ready() ==> results == []
      ensures backend(queryEmbedding, EffectiveTopK(topK, defaultTopK)).Raised? ==> results == []
      ensures forall r :: r in results ==> InBounds(r) && r.similarityScore >= threshold && r.distance <= 2.0
    {
      if !Ready() then []
      else match backend(queryEmbedding, EffectiveTopK(topK, defaultTopK))
        case Raised => []
        case Replied(hits) =>
          ProcessedInBounds(mode, hits, threshold);
          Processed(mode, hits, threshold)
    }

    /** `search_similar_embeddings`: dispatch to the backend and process its hits; any exception yields []. */
    method SearchSimilarEmbeddings(queryEmbedding: seq<real>, topK: Option<int>,
                                   backend: (seq<real>, int) -> SearchReply)
      returns (results: seq<SearchResult>)
      requires Valid()
      ensures results == SearchOutcome(queryEmbedding, topK, backend)
      ensures forall r :: r in results ==> InBounds(r) && r.similarityScore >= threshold
      ensures Ready() && backend(queryEmbedding, EffectiveTopK(topK, defaultTopK)).Raised? ==> results == []
    {
      var limit := EffectiveTopK(topK, defaultTopK);
      var reply := if Ready() then backend(queryEmbedding, limit) else Raised;
      match reply
      case Raised =>
        results := [];
      case Replied(hits) =>
        if mode == Local {
          results := ProcessLocalResults(hits, threshold);
        } else {
          results := ProcessRemoteResults(hits, threshold);
        }
    }

    /**
     * `clear_all_data`: without confirmation it raises before touching anything.
     * Confirmed, it asks whether the collection exists; if so, a remote one is
     * released from memory first (a failed release is logged and ignored) and
     * the collection is dropped. Then it re-runs the initialisation, which
     * recreates the collection empty. The result is False when any of these
     * raises; a drop that fails after the release leaves the remote collection
     * present but no longer loaded.
     */
    method ClearAllData(confirm: bool, clearFault: ClearFault, fault: InitFault) returns (outcome: ClearOutcome)
      requires Valid()
      modifies this
      ensures Valid()
      ensures !confirm ==> outcome == Refused && unchanged(this)
      ensures confirm && clearFault == HasCollectionFails ==> outcome == Cleared(false) && unchanged(this)
      ensures confirm && clearFault == DropFails && old(hasCollection) ==>
        outcome == Cleared(false) && hasCollection && store == old(store) && !loaded &&
        clientSet == old(clientSet) && collectionSet == old(collectionSet)
      ensures confirm && clearFault != HasCollectionFails && !(clearFault == DropFails && old(hasCollection)) ==>
        outcome == Cleared(InitSucceeds(mode, false, fault)) && store == [] &&
        hasCollection == (fault != ConnectFails && fault != CreateFails) &&
        loaded == (mode == Remote && InitSucceeds(mode, false, fault))
      ensures outcome == Cleared(true) ==> Ready() && store == []
    {
      if !confirm {
        return Refused;
      }
      if clearFault == HasCollectionFails {
        return Cleared(false);
      }
      if hasCollection {
        if mode == Remote && clearFault != ReleaseFails {
          loaded := false;
        }
        if clearFault == DropFails {
          return Cleared(false);
        }
        hasCollection, store, loaded := false, [], false;
      }
      var ok := InitializeConnection(fault);
      outcome := Cleared(ok);
    }

    /**
     * `clear_all_data` with the initialisation re-run also when the drop fails, so
     * that a collection released but not dropped is loaded again.
     */
    method ClearAllDataRecovering(confirm: bool, clearFault: ClearFault, fault: InitFault)
      returns (outcome: ClearOutcome)
      requires Valid()
      modifies this
      ensures Valid()
      ensures !confirm ==> outcome == Refused && unchanged(this)
      ensures confirm && clearFault == HasCollectionFails ==> outcome == Cleared(false) && unchanged(this)
      ensures confirm && clearFault == DropFails && old(hasCollection) ==>
        outcome == Cleared(false) && hasCollection && store == old(store) &&
        (InitSucceeds(mode, true, fault) ==> Ready())
      ensures confirm && clearFault != HasCollectionFails && !(clearFault == DropFails && old(hasCollection)) ==>
        outcome == Cleared(InitSucceeds(mode, false, fault)) && store == [] &&
        hasCollection == (fault != ConnectFails && fault != CreateFails) &&
        loaded == (mode == Remote && InitSucceeds(mode, false, fault))
      ensures outcome == Cleared(true) ==> Ready() && store == []
    {
      if !confirm {
        return Refused;
      }
      if clearFault == HasCollectionFails {
        return Cleared(false);
      }
      if hasCollection {
        if mode == Remote && clearFault != ReleaseFails {
          loaded := false;
        }
        if clearFault == DropFails {
          var reloaded := InitializeConnection(fault);
          return Cleared(false);
        }
        hasCollection, store, loaded := false, [], false;
      }
      var ok := InitializeConnection(fault);
      outcome := Cleared(ok);
    }
  }

  /**
   * After a confirmed clear whose drop fails on a remote server, the collection
   * and its records are still there but released, so every search returns
   * nothing, whatever the backend would answer, until the process restarts or
   * a later clear succeeds.
   */
  method SearchAfterFailedDrop(service: Service, queryEmbedding: seq<real>, topK: Option<int>,
                               backend: (seq<real>, int) -> SearchReply)
    returns (outcome: ClearOutcome, results: seq<SearchResult>)
    requires service.Valid() && service.mode == Remote && service.hasCollection
    modifies service
    ensures outcome == Cleared(false)
    ensures service.hasCollection && service.store == old(service.store)
    ensures results == []
  {
    outcome := service.ClearAllData(true, DropFails, NoFault);
    results := service.SearchSimilarEmbeddings(queryEmbedding, topK, backend);
  }

  /** With the recovering clear, the same failed drop leaves the collection able to serve. */
  method SearchAfterRecoveredDrop(service: Service, queryEmbedding: seq<real>, topK: Option<int>,
                                  backend: (seq<real>, int) -> SearchReply)
    returns (outcome: ClearOutcome, results: seq<SearchResult>)
    requires service.Valid() && service.mode == Remote && service.hasCollection
    modifies service
    ensures outcome == Cleared(false)
    ensures service.hasCollection && service.store == old(service.store) && service.Ready()
    ensures results == service.SearchOutcome(queryEmbedding, topK, backend)
    ensures backend(queryEmbedding, EffectiveTopK(topK, service.defaultTopK)).Replied? ==>
      results == Processed(Remote, backend(queryEmbedding, EffectiveTopK(topK, service.defaultTopK)).hits, service.threshold)
  {
    outcome := service.ClearAllDataRecovering(true, DropFails, NoFault);
    results := service.SearchSimilarEmbeddings(queryEmbedding, topK, backend);
  }
}
