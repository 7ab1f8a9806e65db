/** The browser workspace store of scripts/state.js: one state value, kept
    in local storage as JSON under a single key. JSON text is modelled by
    the document it denotes, so serialising and parsing a value give the
    value back and "the JSON texts differ" is "the values differ". */
module BrowserState {
  import opened Wrappers

  const StorageKey := "imastery-tracker/v2"
  const ProbeKey := "__imastery-storage-probe__"

  // ---------------------------------------------------------------------
  // The workspace value
  // ---------------------------------------------------------------------

  datatype Milestone = Milestone(id: string, title: string, complete: bool)

  datatype Stream = Stream(
    id: string, name: string, focus: string, targetDate: string, note: string,
    milestones: seq<Milestone>)

  /** lastCompleted is an ISO day ("YYYY-MM-DD"), None when never done. */
  datatype Habit = Habit(
    id: string, title: string, description: string, cadence: string,
    streak: int, lastCompleted: Option<string>, completeToday: bool)

  datatype JournalEntry = JournalEntry(id: string, date: string, headline: string, focus: string, takeaways: string)

  /** The workspace; extra holds any further top-level keys a saved or
      imported file brought along. */
  datatype AppState = AppState(
    theme: string, createdAt: string,
    streams: seq<Stream>, habits: seq<Habit>, journal: seq<JournalEntry>,
    extra: map<string, string>)

  // ---------------------------------------------------------------------
  // Parsed documents and merging
  // ---------------------------------------------------------------------

  /** A list-valued key of a parsed document: absent, present but not an
      array, or an array. */
  datatype ListField<T> = Missing | NotAList | AList(items: seq<T>)

  /** A parsed JSON object: each known key may be absent (None / Missing). */
  datatype Document = Document(
    theme: Option<string>, createdAt: Option<string>,
    streams: ListField<Stream>, habits: ListField<Habit>, journal: ListField<JournalEntry>,
    extra: map<string, string>)

  const EmptyDocument := Document(None, None, Missing, Missing, Missing, map[])

  /** The top-level keys the workspace models by name. */
  const KnownKeys: set<string> := {"theme", "createdAt", "streams", "habits", "journal"}

  /** The extra keys of a workspace or document are the unnamed ones only. */
  predicate NoKnownKeys(extra: map<string, string>) {
    extra.Keys !! KnownKeys
  }

  function ListOr<T>(field: ListField<T>, fallback: seq<T>): seq<T> {
    if field.AList? then field.items else fallback
  }

  /** The fallback overlaid with the document's keys, except that a list
      key that is not an array keeps the fallback's list. A value that is
      not an object (None) contributes no keys. */
  function MergeWithDefaults(data: Option<Document>, fallback: AppState): (r: AppState)
    ensures data.None? ==> r == fallback
    ensures data.Some? ==>
      && r.theme == data.value.theme.GetOr(fallback.theme)
      && r.createdAt == data.value.createdAt.GetOr(fallback.createdAt)
      && r.streams == ListOr(data.value.streams, fallback.streams)
      && r.habits == ListOr(data.value.habits, fallback.habits)
      && r.journal == ListOr(data.value.journal, fallback.journal)
      && r.extra == fallback.extra + data.value.extra
    ensures NoKnownKeys(fallback.extra) && (data.None? || NoKnownKeys(data.value.extra)) ==> NoKnownKeys(r.extra)
  {
    if data.None? then fallback
    else
      var d := data.value;
      AppState(
        d.theme.GetOr(fallback.theme), d.createdAt.GetOr(fallback.createdAt),
        ListOr(d.streams, fallback.streams), ListOr(d.habits, fallback.habits), ListOr(d.journal, fallback.journal),
        fallback.extra + d.extra)
  }

  /** The document a state is saved as. */
  function DocOf(s: AppState): Document {
    Document(Some(s.theme), Some(s.createdAt), AList(s.streams), AList(s.habits), AList(s.journal), s.extra)
  }

  /** A document without any of the keys changes nothing. */
  lemma MergeEmpty(fallback: AppState)
    ensures MergeWithDefaults(Some(EmptyDocument), fallback) == fallback
  {
    assert fallback.extra + map[] == fallback.extra;
  }

  /** Merging is an overlay: a state that has every key of the fallback
      comes back unchanged from its own saved document. */
  lemma MergeSaved(s: AppState, fallback: AppState)
    requires fallback.extra.Keys <= s.extra.Keys
    ensures MergeWithDefaults(Some(DocOf(s)), fallback) == s
  {
    var m := fallback.extra + s.extra;
    assert m.Keys == s.extra.Keys;
    assert forall k :: k in m ==> m[k] == s.extra[k];
    assert m == s.extra;
  }

  // ---------------------------------------------------------------------
  // Storage
  // ---------------------------------------------------------------------

  /** What globalThis.localStorage offers: which of the three methods are
      functions, and whether writing and removing the probe key succeeds. */
  datatype StorageApi = StorageApi(hasGetItem: bool, hasSetItem: bool, hasRemoveItem: bool, probeSucceeds: bool)

  /** The value found under the storage key. */
  datatype Saved = NothingSaved | Unparseable | Json(doc: Option<Document>)

  predicate HasMethods(api: StorageApi) {
    api.hasGetItem && api.hasSetItem && api.hasRemoveItem
  }

  /** The storage, when it is an object with all three methods and the
      probe write goes through; None otherwise. */
  function GetStorage(env: Option<StorageApi>): (r: Option<StorageApi>)
    ensures r.Some? <==> env.Some? && HasMethods(env.value) && env.value.probeSucceeds
    ensures r.Some? ==> r == env
  {
    if env.None? || !HasMethods(env.value) || !env.value.probeSucceeds then None else env
  }

  /** setItem calls one GetStorage makes: the probe, when the methods are
      there. */
  function ProbeCalls(env: Option<StorageApi>): nat {
    if env.Some? && HasMethods(env.value) then 1 else 0
  }

  /** setItem calls one persist makes: the probe, then the state itself
      when the storage is usable. */
  function PersistCalls(env: Option<StorageApi>): (n: nat)
    ensures n <= 2
    ensures GetStorage(env).Some? ==> n == 2
    ensures env.None? ==> n == 0
  {
    ProbeCalls(env) + (if GetStorage(env).Some? then 1 else 0)
  }

  /** The state at start-up: the defaults when there is no usable storage,
      nothing saved, or text that does not parse; otherwise the saved
      document merged over the defaults. */
  function LoadState(env: Option<StorageApi>, saved: Saved, defaults: AppState): (s: AppState)
    ensures GetStorage(env).None? || saved.NothingSaved? || saved.Unparseable? ==> s == defaults
    ensures GetStorage(env).Some? && saved.Json? ==> s == MergeWithDefaults(saved.doc, defaults)
  {
    if GetStorage(env).None? then defaults
    else match saved
      case NothingSaved => defaults
      case Unparseable => defaults
      case Json(doc) => MergeWithDefaults(doc, defaults)
  }

  /** A storage object missing any of the three methods is never used: the
      workspace starts from the defaults whatever it holds. */
  lemma IncompleteStorageIgnored(api: StorageApi, saved: Saved, defaults: AppState)
    requires !HasMethods(api)
    ensures LoadState(Some(api), saved, defaults) == defaults
    ensures ProbeCalls(Some(api)) == 0
  {}

  /** What persist saves is what the next start-up loads. */
  lemma SavedStateReloads(env: Option<StorageApi>, s: AppState, defaults: AppState)
    requires GetStorage(env).Some? && defaults.extra.Keys <= s.extra.Keys
    ensures LoadState(env, Json(Some(DocOf(s))), defaults) == s
  {
    MergeSaved(s, defaults);
  }

  // ---------------------------------------------------------------------
  // The store
  // ---------------------------------------------------------------------

  /** What the storage key holds after the state s is written over what it
      held before: the state's document when storage is usable, otherwise
      what was there. */
  function SaveTo(env: Option<StorageApi>, s: AppState, before: Saved): Saved {
    if GetStorage(env).Some? then Json(Some(DocOf(s))) else before
  }

  /** The module's state: the current workspace, the value under the
      storage key, and how many times setItem has been called on the
      storage (the probe included). */
  class StateStore {
    const defaults: AppState
    const env: Option<StorageApi>
    var state: AppState
    var saved: Saved
    var setItemCalls: nat

    /** Module start-up: the state is loaded, and the probe is written and
        removed again. */
    constructor Load(defaults: AppState, env: Option<StorageApi>, saved: Saved, setItemCalls: nat)
      ensures this.defaults == defaults && this.env == env
      ensures state == LoadState(env, saved, defaults)
      ensures this.saved == saved
      ensures this.setItemCalls == setItemCalls + ProbeCalls(env)
    {
      this.defaults := defaults;
      this.env := env;
      this.saved := saved;
      this.setItemCalls := setItemCalls + ProbeCalls(env);
      if GetStorage(env).None? {
        state := defaults;
      } else {
        match saved
        case NothingSaved => state := defaults;
        case Unparseable => state := defaults;
        case Json(doc) => state := MergeWithDefaults(doc, defaults);
      }
    }

    /** Writes the state under the storage key when storage is usable. */
    method Persist()
      modifies this`saved, this`setItemCalls
      ensures saved == SaveTo(env, state, old(saved))
      ensures setItemCalls == old(setItemCalls) + PersistCalls(env)
    {
      setItemCalls := setItemCalls + ProbeCalls(env);
      var storage := GetStorage(env);
      if storage.None? {
        return;
      }
      setItemCalls := setItemCalls + 1;
      saved := Json(Some(DocOf(state)));
    }

    /** The draft is what the producer made of a copy of the state. It
        becomes the state, and is saved, only when it differs. */
    method Mutate(draft: AppState) returns (changed: bool)
      modifies this`state, this`saved, this`setItemCalls
      ensures changed <==> draft != old(state)
      ensures state == draft
      ensures changed ==> && saved == SaveTo(env, draft, old(saved))
                          && setItemCalls == old(setItemCalls) + PersistCalls(env)
      ensures !changed ==> saved == old(saved) && setItemCalls == old(setItemCalls)
    {
      changed := draft != state;
      if changed {
        state := draft;
        Persist();
      }
    }

    /** An imported value merged over the defaults becomes the state. */
    method Replace(data: Option<Document>) returns (r: AppState)
      modifies this`state, this`saved, this`setItemCalls
      ensures r == state == MergeWithDefaults(data, defaults)
      ensures saved == SaveTo(env, r, old(saved))
      ensures setItemCalls == old(setItemCalls) + PersistCalls(env)
    {
      state := MergeWithDefaults(data, defaults);
      Persist();
      r := state;
    }

    /** Back to the defaults, saved. */
    method Reset() returns (r: AppState)
      modifies this`state, this`saved, this`setItemCalls
      ensures r == state == defaults
      ensures saved == SaveTo(env, defaults, old(saved))
      ensures setItemCalls == old(setItemCalls) + PersistCalls(env)
    {
      state := defaults;
      Persist();
      r := state;
    }
  }

  /** A mutation that changes nothing writes nothing, and a second run of
      the same producer on its own result writes nothing either. */
  method MutateTwice(store: StateStore, draft: AppState) returns (first: bool, second: bool)
    modifies store
    ensures second == false
    ensures first <==> draft != old(store.state)
    ensures store.state == draft
    ensures !first ==> store.setItemCalls == old(store.setItemCalls)
  {
    first := store.Mutate(draft);
    second := store.Mutate(draft);
  }
}
