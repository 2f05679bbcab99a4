/**
 * The client's linear face-identification network (LinearNeuralNetwork):
 * one native linear model per user, restored from disk or created on
 * admission, trained one-vs-rest on a training matrix assembled once from
 * every user's image directory, and queried by taking the best-scoring user.
 */
module LinearNetwork {
  import opened Optional
  import opened Engine
  import opened Dataset
  import opened OneVsRest
  import opened Prediction

  const ImgSize: nat := 48
  const ImgChannel: nat := 1
  /** Inputs per image, and the size of every model the network creates. */
  const ImgTotalSize: nat := ImgSize * ImgSize * ImgChannel
  const Epochs: nat := 1000
  const LearningRate: real := 0.01

  /** The model file of the user called `name`: models/linear/<name>.model. */
  function ModelPath(name: string): string {
    "models/linear/" + name + ".model"
  }

  /** Different users' names give different model files. */
  lemma ModelPathInjective(a: string, b: string)
    ensures a != b ==> ModelPath(a) != ModelPath(b)
  {
    if ModelPath(a) == ModelPath(b) {
      var prefix := "models/linear/";
      assert |a| == |b|;
      assert a == ModelPath(a)[|prefix|..|prefix| + |a|];
      assert b == ModelPath(b)[|prefix|..|prefix| + |b|];
    }
  }

  /** What a user's handle holds right after admission, given the model files on disk. */
  function Admitted(name: string, disk: set<string>): Origin {
    if ModelPath(name) in disk then Restored(ModelPath(name)) else Created(ImgTotalSize)
  }

  /**
   * A gallery identity: its name, the listing of its image directory
   * (None when `listFiles()` returns null) and its model handle (None for null).
   */
  class User {
    const name: string
    const listing: Option<seq<string>>
    var model: Option<Handle>

    constructor (name: string, listing: Option<seq<string>>)
      ensures this.name == name && this.listing == listing && model == None
    {
      this.name := name;
      this.listing := listing;
      model := None;
    }
  }

  /** Every user's directory could be listed. */
  predicate AllListed(us: seq<User>) {
    forall i :: 0 <= i < |us| ==> us[i].listing.Some?
  }

  /** The users' directory listings, in list order. */
  function Listings(us: seq<User>): (r: seq<seq<string>>)
    requires AllListed(us)
    ensures |r| == |us|
  {
    seq(|us|, i requires 0 <= i < |us| => us[i].listing.value)
  }

  /** The users whose model is not null, in list order (the stream's filter). */
  function WithModel(us: seq<User>): (r: seq<User>)
    reads us
    ensures forall k :: 0 <= k < |r| ==> r[k] in us && r[k].model.Some?
    ensures forall i :: 0 <= i < |us| && us[i].model.Some? ==> us[i] in r
    ensures |r| <= |us| && ((forall i :: 0 <= i < |us| ==> us[i].model.Some?) ==> r == us)
    ensures forall i :: 0 <= i < |us| && us[i].model.Some? && (forall j :: 0 <= j < i ==> us[j].model.None?) ==>
      r != [] && r[0] == us[i]
  {
    if us == [] then []
    else (if us[0].model.Some? then [us[0]] else []) + WithModel(us[1..])
  }

  /** The users' model fields, in list order. */
  ghost function ModelsOf(us: seq<User>): (r: seq<Option<Handle>>)
    reads us
    ensures |r| == |us| && forall j :: 0 <= j < |us| ==> r[j] == us[j].model
  {
    if us == [] then [] else ModelsOf(us[..|us| - 1]) + [us[|us| - 1].model]
  }

  /** The handles held at the first `n` positions of `models`. */
  function HeldBefore(models: seq<Option<Handle>>, n: nat): set<Handle> {
    set j | 0 <= j < n && j < |models| && models[j].Some? :: models[j].value
  }

  /** Giving position `i` the handle `h` adds `h` to the handles held up to and including `i`. */
  lemma HeldBeforeStep(models: seq<Option<Handle>>, i: nat, h: Handle)
    requires i < |models|
    ensures HeldBefore(models[i := Some(h)], i + 1) == HeldBefore(models, i) + {h}
  {
    var m := models[i := Some(h)];
    forall g | g in HeldBefore(m, i + 1) ensures g in HeldBefore(models, i) + {h} {
      var j :| 0 <= j < i + 1 && j < |m| && m[j].Some? && m[j].value == g;
      if j < i { assert models[j] == m[j]; }
    }
    forall g | g in HeldBefore(models, i) ensures g in HeldBefore(m, i + 1) {
      var j :| 0 <= j < i && j < |models| && models[j].Some? && models[j].value == g;
      assert m[j] == models[j];
    }
    assert m[i] == Some(h);
  }

  /** The handles held at the first `n + 1` positions are those at the first `n` and position `n`'s. */
  lemma HeldBeforeNext(models: seq<Option<Handle>>, n: nat)
    requires n < |models| && models[n].Some?
    ensures HeldBefore(models, n + 1) == HeldBefore(models, n) + {models[n].value}
  {
    assert models[n := Some(models[n].value)] == models;
    HeldBeforeStep(models, n, models[n].value);
  }

  /**
   * Replacing the handle `m`, held at position `n - 1`, by `h` at that
   * position and wherever else the first `n` positions hold it replaces
   * `m` by `h` among the handles held there.
   */
  lemma HeldBeforeSwap(models: seq<Option<Handle>>, now: seq<Option<Handle>>, n: nat, m: Handle, h: Handle)
    requires 0 < n <= |models| == |now| && models[n - 1] == Some(m)
    requires forall j :: 0 <= j < n ==>
      now[j] == if models[j] == Some(m) || j == n - 1 then Some(h) else models[j]
    ensures HeldBefore(now, n) == HeldBefore(models, n) - {m} + {h}
  {
    forall g | g in HeldBefore(now, n) ensures g in HeldBefore(models, n) - {m} + {h} {
      var j :| 0 <= j < n && j < |now| && now[j].Some? && now[j].value == g;
      if g != h { assert models[j] == now[j]; }
    }
    forall g | g in HeldBefore(models, n) - {m} ensures g in HeldBefore(now, n) {
      var j :| 0 <= j < n && j < |models| && models[j].Some? && models[j].value == g;
      assert now[j] == models[j];
    }
    assert now[n - 1] == Some(h);
  }

  /** Each candidate's score, in order; `score` gives a model's output on the input image. */
  function Scores(candidates: seq<User>, score: Handle -> real): (r: seq<real>)
    requires forall k :: 0 <= k < |candidates| ==> candidates[k].model.Some?
    reads candidates
    ensures |r| == |candidates|
  {
    seq(|candidates|, k requires 0 <= k < |candidates| && candidates[k].model.Some? reads candidates =>
      score(candidates[k].model.value))
  }

  /**
   * The inner assembly loop: the accepted files of one user (`model`
   * skipped) become rows `index`, `index + 1`, ..., each labelled
   * `rowLabel`; nothing else in the two arrays changes.
   */
  method WriteUserRows(inputs: array<Row>, labels: array<real>, owner: nat, files: seq<string>,
                       index: nat, rowLabel: int) returns (next: nat)
    requires inputs.Length == labels.Length
    requires index + |UserRows(owner, files)| <= inputs.Length
    modifies inputs, labels
    ensures next == index + |UserRows(owner, files)|
    ensures forall k :: index <= k < next ==> inputs[k] == UserRows(owner, files)[k - index] && labels[k] == rowLabel as real
    ensures forall k :: 0 <= k < inputs.Length && !(index <= k < next) ==>
      inputs[k] == old(inputs[k]) && labels[k] == old(labels[k])
  {
    ghost var written: seq<Row> := [];
    ghost var rows, marks := inputs[..], labels[..];
    next := index;
    for j := 0 to |files|
      invariant written == UserRows(owner, files[..j])
      invariant next == index + |written| <= index + |UserRows(owner, files)|
      invariant inputs[..] == rows && labels[..] == marks && |rows| == |marks| == inputs.Length
      invariant forall k :: 0 <= k < |written| ==> rows[index + k] == written[k]
      invariant forall k :: index <= k < next ==> marks[k] == rowLabel as real
      invariant forall k :: 0 <= k < |rows| && !(index <= k < next) ==> rows[k] == old(inputs[k])
      invariant forall k :: 0 <= k < |marks| && !(index <= k < next) ==> marks[k] == old(labels[k])
    {
      UserRowsNext(owner, files, j);
      UserRowsShorter(owner, files, j + 1);
      if files[j] != ModelEntry {
        inputs[next] := Image(owner, files[j]);
        labels[next] := rowLabel as real;
        rows, marks := rows[next := Image(owner, files[j])], marks[next := rowLabel as real];
        next := next + 1;
        written := written + [Image(owner, files[j])];
      }
    }
    assert files[..|files|] == files;
  }

  /** One more file of a listing adds its row, unless it is the `model` entry. */
  lemma UserRowsNext(owner: nat, files: seq<string>, j: nat)
    requires j < |files|
    ensures UserRows(owner, files[..j + 1]) ==
      UserRows(owner, files[..j]) + if files[j] == ModelEntry then [] else [Image(owner, files[j])]
  {
    assert files[..j + 1][..j] == files[..j];
  }

  /** The rows of a prefix of a listing are a prefix of the listing's rows. */
  lemma {:induction false} UserRowsPrefix(owner: nat, files: seq<string>, j: nat)
    requires j <= |files|
    ensures UserRows(owner, files[..j]) <= UserRows(owner, files)
    decreases |files| - j
  {
    if j < |files| {
      var init := files[..|files| - 1];
      assert init[..j] == files[..j];
      UserRowsPrefix(owner, init, j);
    } else {
      assert files[..j] == files;
    }
  }

  /** A prefix of a listing has no more rows than the listing. */
  lemma UserRowsShorter(owner: nat, files: seq<string>, j: nat)
    requires j <= |files|
    ensures |UserRows(owner, files[..j])| <= |UserRows(owner, files)|
  {
    UserRowsPrefix(owner, files, j);
  }

  /** The row count of a prefix of the users never exceeds the files of the whole list. */
  lemma {:induction false} FilesSizePrefix(listings: seq<seq<string>>, i: nat)
    requires i <= |listings|
    ensures FilesSize(listings[..i]) <= FilesSize(listings)
    decreases |listings| - i
  {
    if i < |listings| {
      var init := listings[..|listings| - 1];
      assert init[..i] == listings[..i];
      FilesSizePrefix(init, i);
    } else {
      assert listings[..i] == listings;
    }
  }

  /** The user the stream keeps: the reduction's winner among the users holding a model. */
  function Winner(us: seq<User>, score: Handle -> real): (w: User)
    requires WithModel(us) != []
    reads us
    ensures w in us && w.model.Some?
  {
    var candidates := WithModel(us);
    candidates[MaxIndex(Scores(candidates, score))]
  }

  /** The reduction's winner among the users with a model scores within 1 of each of them. */
  lemma WinnerNearMaximum(us: seq<User>, score: Handle -> real)
    requires WithModel(us) != []
    ensures forall i :: 0 <= i < |us| && us[i].model.Some? ==>
      score(us[i].model.value) < score(Winner(us, score).model.value) + 1.0
  {
    var candidates := WithModel(us);
    var scores := Scores(candidates, score);
    MaxIndexNearMaximum(scores);
    forall i | 0 <= i < |us| && us[i].model.Some?
      ensures score(us[i].model.value) < scores[MaxIndex(scores)] + 1.0
    {
      var k :| 0 <= k < |candidates| && candidates[k] == us[i];
      assert scores[k] == score(us[i].model.value);
    }
  }

  /**
   * The first user holding a model wins unless some user scores at least 1
   * more than it, and a different winner does score at least 1 more.
   */
  lemma WinnerFirstUnlessBeaten(us: seq<User>, score: Handle -> real)
    requires WithModel(us) != []
    ensures Winner(us, score) != WithModel(us)[0] ==>
      score(Winner(us, score).model.value) >= score(WithModel(us)[0].model.value) + 1.0
    ensures Winner(us, score) == WithModel(us)[0] <==> forall i :: 0 <= i < |us| && us[i].model.Some? ==>
      score(us[i].model.value) < score(WithModel(us)[0].model.value) + 1.0
  {
    var candidates := WithModel(us);
    var scores := Scores(candidates, score);
    var k := MaxIndex(scores);
    MaxIndexLaterBeatsFirst(scores);
    WinnerNearMaximum(us, score);
    assert scores[k] == score(candidates[k].model.value) && scores[0] == score(candidates[0].model.value);
    if candidates[k] != candidates[0] {
      var i :| 0 <= i < |us| && us[i] == candidates[k];
      assert score(us[i].model.value) >= score(candidates[0].model.value) + 1.0;
    }
  }

  class LinearNeuralNetwork {
    const engine: ModelEngine<Row>
    const users: seq<User>
    var normalizedInputs: array?<Row>
    var labels: array?<real>

    /**
     * Every user holds a live model handle, no two users share one, and the
     * cached training data comes with its labels.
     */
    ghost predicate Valid()
      reads this, engine, users
    {
      engine.Valid() &&
      (forall u :: u in users ==> u.model.Some? && u.model.value in engine.live) &&
      HeldOnce(ModelsOf(users)) &&
      (normalizedInputs != null ==> labels != null)
    }

    /** No two users hold the same model (in `models`, by position). */
    ghost predicate HeldOnce(models: seq<Option<Handle>>) {
      |models| == |users| &&
      forall i, j :: 0 <= i < |models| && 0 <= j < |models| && users[i] != users[j] ==> models[i] != models[j]
    }

    /** No other user has the same name (and so the same model file). */
    predicate UniqueName(i: nat)
      requires i < |users|
    {
      forall j :: 0 <= j < |users| && users[j].name == users[i].name ==> users[j] == users[i]
    }

    /** No user appears twice in the list. */
    predicate Distinct() {
      forall i, j :: 0 <= i < j < |users| ==> users[i] != users[j]
    }

    /** The handles the users hold. */
    ghost function Handles(): set<Handle>
      reads users
    {
      HeldBefore(ModelsOf(users), |users|)
    }

    /** The model files of the first `n` users. */
    function PathsBefore(n: nat): set<string> {
      set j | 0 <= j < n && j < |users| :: ModelPath(users[j].name)
    }

    /** The users' model files. */
    function Paths(): set<string> {
      PathsBefore(|users|)
    }

    /** The model files of the first `i + 1` users are those of the first `i` and user `i`'s. */
    lemma PathsBeforeStep(i: nat)
      requires i < |users|
      ensures PathsBefore(i + 1) == PathsBefore(i) + {ModelPath(users[i].name)}
    {
      forall p | p in PathsBefore(i + 1) ensures p in PathsBefore(i) + {ModelPath(users[i].name)} {
        var j :| 0 <= j < i + 1 && j < |users| && ModelPath(users[j].name) == p;
        if j < i { assert p in PathsBefore(i); }
      }
    }

    /** The network over `users`, admitting each of them in list order. */
    constructor (users: seq<User>, engine: ModelEngine<Row>)
      requires engine.Valid()
      modifies users, engine
      ensures this.users == users && this.engine == engine
      ensures Valid() && normalizedInputs == null && labels == null
      ensures forall i :: 0 <= i < |users| ==>
        users[i].model.value !in old(engine.issued) &&
        engine.origin[users[i].model.value] == Admitted(users[i].name, old(engine.disk))
      ensures engine.live == old(engine.live) + (engine.issued - old(engine.issued))
      ensures Distinct() ==> engine.issued == old(engine.issued) + Handles()
      ensures engine.disk == old(engine.disk) && engine.trainedWith == old(engine.trainedWith)
      ensures engine.savedFrom == old(engine.savedFrom)
    {
      this.engine := engine;
      this.users := users;
      normalizedInputs, labels := null, null;
      new;
      assert HeldBefore(ModelsOf(users), 0) == {};
      AdmitAll(old(engine.issued), old(engine.live), old(engine.disk));
      AdmittedAll(ModelsOf(users), engine.State(), old(engine.issued), old(engine.live), old(engine.disk));
    }

    /** The admission loop: `users.forEach(this::addUser)`. */
    method AdmitAll(ghost issued0: set<Handle>, ghost live0: set<Handle>, ghost disk0: set<string>)
      requires engine.Valid() && engine.disk == disk0 && AdmittedUpTo(0, issued0, live0, disk0)
      modifies users, engine
      ensures engine.Valid() && AdmittedUpTo(|users|, issued0, live0, disk0)
      ensures engine.disk == old(engine.disk) && engine.trainedWith == old(engine.trainedWith)
      ensures engine.savedFrom == old(engine.savedFrom)
    {
      ghost var models, state := ModelsOf(users), engine.State();
      for i := 0 to |users|
        invariant engine.Valid()
        invariant engine.disk == old(engine.disk) && engine.trainedWith == old(engine.trainedWith)
        invariant engine.savedFrom == old(engine.savedFrom)
        invariant models == ModelsOf(users) && state == engine.State()
        invariant AdmittedIn(models, state, i, issued0, live0, disk0)
      {
        AdmitStep(i, issued0, live0, disk0);
        models, state := ModelsOf(users), engine.State();
      }
    }

    /** Once every user is admitted, every user holds a live model of its own. */
    lemma AdmittedAll(models: seq<Option<Handle>>, now: HandleState,
                      issued0: set<Handle>, live0: set<Handle>, disk0: set<string>)
      requires AdmittedIn(models, now, |users|, issued0, live0, disk0)
      ensures HeldOnce(models)
      ensures forall j :: 0 <= j < |users| ==> models[j].Some? && models[j].value in now.live
    {
    }

    /**
     * The first `i` users hold distinct live handles issued since `issued0`,
     * each holding what admission gives over the files `disk0`; the handles
     * issued since then are all live, and for a list without repeated users
     * they are exactly the handles of the first `i` users.
     */
    ghost predicate AdmittedUpTo(i: nat, issued0: set<Handle>, live0: set<Handle>, disk0: set<string>)
      reads users, engine
    {
      AdmittedIn(ModelsOf(users), engine.State(), i, issued0, live0, disk0)
    }

    /** `AdmittedUpTo` over the given models (by position) and handle bookkeeping `now`. */
    ghost predicate AdmittedIn(models: seq<Option<Handle>>, now: HandleState, i: nat,
                               issued0: set<Handle>, live0: set<Handle>, disk0: set<string>)
    {
      |models| == |users| && issued0 <= now.issued &&
      (forall j :: 0 <= j < i && j < |users| ==>
        models[j].Some? && models[j].value in now.live &&
        models[j].value !in issued0 && models[j].value in now.origin &&
        now.origin[models[j].value] == Admitted(users[j].name, disk0)) &&
      (forall j, k :: 0 <= j < i && 0 <= k < i && j < |users| && k < |users| && users[j] != users[k] ==>
        models[j] != models[k]) &&
      now.live == live0 + (now.issued - issued0) &&
      (Distinct() ==> now.issued == issued0 + HeldBefore(models, i))
    }

    /**
     * Admitting user `i` with the fresh handle `h` (the users' models going
     * from `models` to `now`, the bookkeeping from `before` to `after`)
     * extends `AdmittedIn` to user `i`.
     */
    lemma AdmitStepIn(i: nat, models: seq<Option<Handle>>, before: HandleState, now: seq<Option<Handle>>,
                      after: HandleState, h: Handle, issued0: set<Handle>, live0: set<Handle>, disk0: set<string>)
      requires i < |users| == |now| && AdmittedIn(models, before, i, issued0, live0, disk0)
      requires before.live <= before.issued && h !in before.issued
      requires forall j :: 0 <= j < |users| ==> now[j] == if users[j] == users[i] then Some(h) else models[j]
      requires after == HandleState(before.issued + {h}, before.live + {h},
                                    before.origin[h := Admitted(users[i].name, disk0)])
      ensures AdmittedIn(now, after, i + 1, issued0, live0, disk0)
    {
      if Distinct() {
        forall j | 0 <= j < |users| ensures now[j] == models[i := Some(h)][j] {
          if j != i { assert users[j] != users[i]; }
        }
        assert now == models[i := Some(h)];
        HeldBeforeStep(models, i, h);
      }
    }

    /** One iteration of the admission loop: `addUser(users[i])`. */
    method AdmitStep(i: nat, ghost issued0: set<Handle>, ghost live0: set<Handle>, ghost disk0: set<string>)
      requires engine.Valid() && i < |users| && engine.disk == disk0
      requires AdmittedUpTo(i, issued0, live0, disk0)
      modifies users[i], engine
      ensures engine.Valid() && AdmittedUpTo(i + 1, issued0, live0, disk0)
      ensures engine.disk == old(engine.disk) && engine.trainedWith == old(engine.trainedWith)
      ensures engine.savedFrom == old(engine.savedFrom)
    {
      var user := users[i];
      ghost var before, models := engine.State(), ModelsOf(users);
      AddUser(user);
      ghost var h, now := user.model.value, ModelsOf(users);
      assert forall j :: 0 <= j < |users| ==> now[j] == if users[j] == user then Some(h) else models[j];
      AdmitStepIn(i, models, before, now, engine.State(), h, issued0, live0, disk0);
    }

    /**
     * `addUser`: the user's handle becomes the saved model when its model
     * file exists, and a fresh model of `ImgTotalSize` inputs otherwise. A
     * handle the user held before is not deleted.
     */
    method AddUser(u: User)
      requires engine.Valid()
      modifies u, engine
      ensures engine.Valid()
      ensures u.model.Some? && u.model.value !in old(engine.issued)
      ensures engine.issued == old(engine.issued) + {u.model.value}
      ensures engine.live == old(engine.live) + {u.model.value}
      ensures engine.origin == old(engine.origin)[u.model.value := Admitted(u.name, old(engine.disk))]
      ensures engine.disk == old(engine.disk) && engine.trainedWith == old(engine.trainedWith)
      ensures engine.savedFrom == old(engine.savedFrom)
      ensures old(Valid()) ==> Valid()
    {
      var path := ModelPath(u.name);
      var h;
      if engine.Exists(path) {
        h := engine.LoadModel(path);
      } else {
        h := engine.CreateModel(ImgTotalSize);
      }
      u.model := Some(h);
    }

    /**
     * `predict`: None on an empty gallery or when no user has a model;
     * otherwise the user the comparator's reduction keeps, paired with 0.
     * No user with a model scores 1 or more above the returned one.
     */
    function Predict(score: Handle -> real): (r: Option<(User, int)>)
      reads users
      ensures users == [] ==> r == None
      ensures r == None <==> forall i :: 0 <= i < |users| ==> users[i].model.None?
      ensures r.Some? ==> r.value.1 == 0 && r.value.0 in users && r.value.0.model.Some?
      ensures r.Some? ==> forall i :: 0 <= i < |users| && users[i].model.Some? ==>
        score(users[i].model.value) < score(r.value.0.model.value) + 1.0
      ensures r.Some? <==> WithModel(users) != []
      ensures r.Some? && r.value.0 != WithModel(users)[0] ==>
        score(r.value.0.model.value) >= score(WithModel(users)[0].model.value) + 1.0
      ensures r.Some? ==> (r.value.0 == WithModel(users)[0] <==>
        forall i :: 0 <= i < |users| && users[i].model.Some? ==>
          score(users[i].model.value) < score(WithModel(users)[0].model.value) + 1.0)
    {
      if users == [] then None
      else
        var candidates := WithModel(users);
        if candidates == [] then None
        else
          WinnerNearMaximum(users, score);
          WinnerFirstUnlessBeaten(users, score);
          Some((Winner(users, score), 0))
    }

    /**
     * `train()`: fails (a NullPointerException in the source) when some
     * directory cannot be listed, changing nothing. On the first call it
     * replaces every user's model with a fresh one and assembles and caches
     * the training matrix and labels; later calls reuse them and the
     * existing models. Every user's model is then trained on its
     * one-vs-rest labels and saved to its model file.
     */
    method Train() returns (listed: bool)
      requires Valid()
      modifies this, engine, users
      ensures listed == AllListed(users)
      ensures !listed ==> unchanged(this) && unchanged(engine)
      ensures !listed ==> ModelsOf(users) == old(ModelsOf(users))
      ensures listed ==> Valid() && normalizedInputs != null && labels != null
      ensures listed && old(normalizedInputs) == null ==>
        fresh(normalizedInputs) && fresh(labels) &&
        Assembly(normalizedInputs[..], labels[..], ModelsOf(users), old(engine.State()), old(Handles()), engine.State())
      ensures listed && old(normalizedInputs) != null ==>
        normalizedInputs == old(normalizedInputs) && labels == old(labels) &&
        ModelsOf(users) == old(ModelsOf(users)) && engine.State() == old(engine.State())
      ensures listed ==> TrainedUpTo(|users|, normalizedInputs[..], labels[..]) && SavedUpTo(|users|)
      ensures listed ==> FilesSaved(|users|, old(engine.disk), old(engine.savedFrom))
      ensures listed ==> RetrainedOnly(|users|, old(engine.trainedWith))
    {
      var filesSize;
      listed, filesSize := CountFiles();
      if !listed {
        return;
      }
      TrainListed(filesSize);
    }

    /** `train()` once every directory could be listed and `filesSize` counted. */
    method TrainListed(filesSize: nat)
      requires Valid() && AllListed(users) && filesSize == FilesSize(Listings(users))
      modifies this, engine, users
      ensures Valid() && normalizedInputs != null && labels != null
      ensures old(normalizedInputs) == null ==>
        fresh(normalizedInputs) && fresh(labels) &&
        Assembly(normalizedInputs[..], labels[..], ModelsOf(users), old(engine.State()), old(Handles()), engine.State())
      ensures old(normalizedInputs) != null ==>
        normalizedInputs == old(normalizedInputs) && labels == old(labels) &&
        ModelsOf(users) == old(ModelsOf(users)) && engine.State() == old(engine.State())
      ensures TrainedUpTo(|users|, normalizedInputs[..], labels[..]) && SavedUpTo(|users|)
      ensures FilesSaved(|users|, old(engine.disk), old(engine.savedFrom))
      ensures RetrainedOnly(|users|, old(engine.trainedWith))
    {
      var inputs := new Row[filesSize](_ => Blank);
      assert Handles() == old(Handles()) && ModelsOf(users) == old(ModelsOf(users));
      if normalizedInputs == null {
        FirstAssembly(inputs);
      }
      ghost var matrix, shared := normalizedInputs[..], labels[..];
      TrainAll();
      assert normalizedInputs[..] == matrix && labels[..] == shared;
    }

    /**
     * The block run when no training matrix is cached: zeroed labels of
     * the matrix's length, every user's model reset and the rows written,
     * then the matrix cached.
     */
    method FirstAssembly(inputs: array<Row>)
      requires Valid() && normalizedInputs == null && AllListed(users)
      requires inputs.Length == FilesSize(Listings(users))
      requires forall k :: 0 <= k < inputs.Length ==> inputs[k] == Blank
      modifies this, inputs, engine, users
      ensures Valid() && normalizedInputs == inputs && labels != null && fresh(labels)
      ensures Assembly(normalizedInputs[..], labels[..], ModelsOf(users), old(engine.State()), old(Handles()), engine.State())
      ensures engine.trainedWith == old(engine.trainedWith)
      ensures engine.disk == old(engine.disk) && engine.savedFrom == old(engine.savedFrom)
    {
      labels := new real[inputs.Length](_ => 0.0);
      normalizedInputs := inputs;
      assert Handles() == old(Handles());
      ResetAndAssemble(inputs, labels);
    }

    /**
     * What the first call leaves behind: the cached matrix and labels are
     * the assembled ones, and the users' models (`models`) were replaced
     * between the handle bookkeeping `before` (when they held `handles0`)
     * and `after`.
     */
    ghost predicate Assembly(matrix: seq<Row>, shared: seq<real>, models: seq<Option<Handle>>,
                             before: HandleState, handles0: set<Handle>, after: HandleState)
    {
      AllListed(users) &&
      matrix == Assembled(Listings(users)) &&
      shared == LabelsOf(Assembled(Listings(users)), PositionLabels(users)) &&
      ModelsReplaced(before, handles0, models, after)
    }

    /**
     * `filesSize`: the sum of the users' directory sizes, or a failure when
     * some directory cannot be listed.
     */
    method CountFiles() returns (listed: bool, filesSize: nat)
      ensures listed == AllListed(users)
      ensures listed ==> filesSize == FilesSize(Listings(users))
    {
      filesSize := 0;
      for i := 0 to |users|
        invariant AllListed(users[..i])
        invariant filesSize == FilesSize(Listings(users[..i]))
      {
        if users[i].listing.None? {
          return false, 0;
        }
        assert Listings(users[..i + 1])[..i] == Listings(users[..i]);
        filesSize := filesSize + |users[i].listing.value|;
      }
      assert users[..|users|] == users;
      listed := true;
    }

    /**
     * The first call's block: for each user in list order, delete its model
     * and give it a fresh one of `ImgTotalSize` inputs, then write its
     * images as the next rows, each labelled with the user's `indexOf`.
     */
    method ResetAndAssemble(inputs: array<Row>, labels: array<real>)
      requires Valid() && AllListed(users)
      requires inputs.Length == labels.Length == FilesSize(Listings(users))
      requires forall k :: 0 <= k < inputs.Length ==> inputs[k] == Blank && labels[k] == 0.0
      modifies inputs, labels, engine, users
      ensures Valid()
      ensures inputs[..] == Assembled(Listings(users))
      ensures labels[..] == LabelsOf(Assembled(Listings(users)), PositionLabels(users))
      ensures ModelsReplaced(old(engine.State()), old(Handles()), ModelsOf(users), engine.State())
      ensures engine.trainedWith == old(engine.trainedWith)
      ensures engine.disk == old(engine.disk) && engine.savedFrom == old(engine.savedFrom)
    {
      ghost var entry, entryModels := engine.State(), ModelsOf(users);
      ghost var done: set<User> := {};
      var index := 0;
      ResetStart(entry, entryModels);
      assert Listings(users)[..0] == [];
      for i := 0 to |users|
        invariant Valid()
        invariant engine.trainedWith == old(engine.trainedWith)
        invariant engine.disk == old(engine.disk) && engine.savedFrom == old(engine.savedFrom)
        invariant Written(inputs, labels, Rows(Listings(users)[..i]), index)
        invariant ResetUpTo(done, i, entry, entryModels)
      {
        index := AssembleStep(inputs, labels, i, index, done, entry, entryModels);
        done := done + {users[i]};
      }
      WrittenIsAssembled(inputs, labels, index);
      ResetAll(ModelsOf(users), engine.State(), done, entry, entryModels);
    }

    /**
     * Before the first reset, with every user holding a live model, the
     * reset so far is empty.
     */
    lemma ResetStart(entry: HandleState, entryModels: seq<Option<Handle>>)
      requires |entryModels| == |users| && entry.live <= entry.issued
      requires forall j :: 0 <= j < |users| ==> entryModels[j].Some? && entryModels[j].value in entry.live
      ensures ResetIn(entryModels, entry, {}, 0, entry, entryModels)
    {
      assert HeldBefore(entryModels, 0) == {};
    }

    /**
     * Once every user is in `done`, every user holds a fresh model and none
     * of the models they held at entry is live.
     */
    lemma ResetAll(models: seq<Option<Handle>>, now: HandleState, done: set<User>,
                   entry: HandleState, entryModels: seq<Option<Handle>>)
      requires ResetIn(models, now, done, |users|, entry, entryModels)
      ensures ModelsReplaced(entry, HeldBefore(entryModels, |users|), models, now)
    {
      forall g | g in HeldBefore(entryModels, |users|) ensures g !in now.live {
        var j :| 0 <= j < |users| && j < |entryModels| && entryModels[j].Some? && entryModels[j].value == g;
        assert users[j] in done;
      }
    }

    /**
     * From the handle bookkeeping `before` to `after`: every user holds a
     * model (`models`, by position) issued since, of `ImgTotalSize` inputs,
     * and none of the models the users held before (`handles0`) is live any
     * more: the live handles are those live before, less those models, plus
     * the new ones. For a list without repeated users the handles issued
     * since are exactly the new models. Every handle issued before keeps
     * its origin.
     */
    ghost predicate ModelsReplaced(before: HandleState, handles0: set<Handle>, models: seq<Option<Handle>>,
                                   after: HandleState)
    {
      (forall i :: 0 <= i < |models| ==>
        models[i].Some? && models[i].value !in before.issued &&
        models[i].value in after.origin && after.origin[models[i].value] == Created(ImgTotalSize)) &&
      handles0 !! after.live &&
      after.live == before.live - handles0 + HeldBefore(models, |models|) &&
      (Distinct() ==> after.issued == before.issued + HeldBefore(models, |models|)) &&
      CreatedSince(before.origin, after.origin)
    }

    /**
     * The reset of the first `count` users (the users in `done`), seen
     * from the handle bookkeeping `entry`, when the users held
     * `entryModels`, to the users' models and the bookkeeping now.
     */
    ghost predicate ResetUpTo(done: set<User>, count: nat, entry: HandleState, entryModels: seq<Option<Handle>>)
      reads users, engine
    {
      ResetIn(ModelsOf(users), engine.State(), done, count, entry, entryModels)
    }

    /** `ResetUpTo` over the given models (by position) and bookkeeping `now`. */
    ghost predicate ResetIn(models: seq<Option<Handle>>, now: HandleState, done: set<User>, count: nat,
                            entry: HandleState, entryModels: seq<Option<Handle>>)
    {
      entry.issued <= now.issued &&
      ResetSoFar(models, now, done, count, entry.issued, entryModels) &&
      LiveSoFar(models, now, count, entry.live, entry.issued, entryModels) &&
      CreatedSince(entry.origin, now.origin)
    }

    /**
     * The users in `done` hold models (`models`, by position) created since
     * the handles `entryIssued` were issued, of `ImgTotalSize` inputs, and
     * the models they held then (`entryModels`) are no longer live in
     * `now`; the others still hold those models.
     */
    ghost predicate ResetSoFar(models: seq<Option<Handle>>, now: HandleState, done: set<User>, count: nat,
                               entryIssued: set<Handle>, entryModels: seq<Option<Handle>>)
    {
      |entryModels| == |users| && |models| == |users| &&
      (forall j :: 0 <= j < count && j < |users| ==> users[j] in done) &&
      forall j :: 0 <= j < |users| ==>
        entryModels[j].Some? && entryModels[j].value in entryIssued &&
        (users[j] in done ==>
           models[j].Some? && models[j].value !in entryIssued &&
           models[j].value in now.origin && now.origin[models[j].value] == Created(ImgTotalSize) &&
           entryModels[j].value !in now.live) &&
        (users[j] !in done ==> models[j] == entryModels[j])
    }

    /**
     * The live handles of `now` are those live at entry (`entryLive`), less
     * the models the first `count` users held then, plus the models they
     * hold now; for a list without repeated users, the handles issued since
     * `entryIssued` are exactly the models they hold now.
     */
    ghost predicate LiveSoFar(models: seq<Option<Handle>>, now: HandleState, count: nat,
                              entryLive: set<Handle>, entryIssued: set<Handle>, entryModels: seq<Option<Handle>>)
    {
      entryLive <= entryIssued &&
      now.live == entryLive - HeldBefore(entryModels, count) + HeldBefore(models, count) &&
      (Distinct() ==> now.issued == entryIssued + HeldBefore(models, count))
    }

    /**
     * From the origins `origin0` to `origin`: the handles issued before keep
     * their origin, and every handle issued since holds a fresh model of
     * `ImgTotalSize` inputs.
     */
    ghost predicate CreatedSince(origin0: map<Handle, Origin>, origin: map<Handle, Origin>)
    {
      origin0.Keys <= origin.Keys &&
      forall g :: g in origin ==> origin[g] == if g in origin0 then origin0[g] else Created(ImgTotalSize)
    }

    /**
     * One iteration of the assembly loop: user `i`'s model is reset, then
     * its rows are written after those of the users before it.
     */
    method AssembleStep(inputs: array<Row>, labels: array<real>, i: nat, index: nat, ghost done: set<User>,
                        ghost entry: HandleState, ghost entryModels: seq<Option<Handle>>)
      returns (next: nat)
      requires Valid() && AllListed(users) && i < |users|
      requires inputs.Length == FilesSize(Listings(users))
      requires Written(inputs, labels, Rows(Listings(users)[..i]), index)
      requires ResetUpTo(done, i, entry, entryModels)
      modifies inputs, labels, users[i], engine
      ensures Valid()
      ensures Written(inputs, labels, Rows(Listings(users)[..i + 1]), next)
      ensures ResetUpTo(done + {users[i]}, i + 1, entry, entryModels)
      ensures engine.trainedWith == old(engine.trainedWith)
      ensures engine.disk == old(engine.disk) && engine.savedFrom == old(engine.savedFrom)
    {
      ResetStep(i, done, entry, entryModels);
      label reset:
      next := AssembleUser(inputs, labels, i, index);
      assert unchanged@reset(users) && unchanged@reset(engine);
    }

    /** The reset of one user, which extends the reset so far to it. */
    method ResetStep(i: nat, ghost done: set<User>, ghost entry: HandleState, ghost entryModels: seq<Option<Handle>>)
      requires Valid() && i < |users|
      requires ResetUpTo(done, i, entry, entryModels)
      modifies users[i], engine
      ensures Valid()
      ensures ResetUpTo(done + {users[i]}, i + 1, entry, entryModels)
      ensures engine.trainedWith == old(engine.trainedWith)
      ensures engine.disk == old(engine.disk) && engine.savedFrom == old(engine.savedFrom)
    {
      var user := users[i];
      ghost var before, models := engine.State(), ModelsOf(users);
      ghost var m := user.model.value;
      assert forall j :: 0 <= j < |users| ==> (models[j] == Some(m) <==> users[j] == user);
      ResetModel(user);
      ghost var h, now := user.model.value, ModelsOf(users);
      assert forall j :: 0 <= j < |users| ==> now[j] == if users[j] == user then Some(h) else models[j];
      ResetStepIn(i, done, entry, entryModels, models, before, now, engine.State(), m, h);
    }

    /**
     * Resetting user `i`, which deletes its model `m` and gives it the fresh
     * `h` (the users' models going from `models` to `now` and the
     * bookkeeping from `before` to `after`), extends the reset so far to it.
     */
    lemma ResetStepIn(i: nat, done: set<User>, entry: HandleState, entryModels: seq<Option<Handle>>,
                      models: seq<Option<Handle>>, before: HandleState, now: seq<Option<Handle>>,
                      after: HandleState, m: Handle, h: Handle)
      requires i < |users| == |models| == |now|
      requires ResetIn(models, before, done, i, entry, entryModels)
      requires before.live <= before.issued == before.origin.Keys && h !in before.issued
      requires forall j :: 0 <= j < |users| ==> (models[j] == Some(m) <==> users[j] == users[i])
      requires forall j :: 0 <= j < |users| ==> now[j] == if users[j] == users[i] then Some(h) else models[j]
      requires after == HandleState(before.issued + {h}, before.live - {m} + {h},
                                    before.origin[h := Created(ImgTotalSize)])
      ensures ResetIn(now, after, done + {users[i]}, i + 1, entry, entryModels)
    {
      forall j | 0 <= j < |users| && users[j] in done + {users[i]}
        ensures now[j].Some? && now[j].value !in entry.issued
        ensures now[j].value in after.origin && after.origin[now[j].value] == Created(ImgTotalSize)
        ensures entryModels[j].value !in after.live
      {
        if users[j] != users[i] {
          assert models[j].value in before.origin;
        }
      }
      forall j | 0 <= j < |users|
        ensures now[j] == if models[j] == Some(m) || j == i then Some(h) else models[j]
      {
      }
      forall j | 0 <= j < i ensures models[j].Some? && models[j].value !in entry.issued {
        assert users[j] in done;
      }
      LiveAfterReset(i, entry.live, entry.issued, entryModels, before.live, before.issued, models, now, m, h);
    }

    /**
     * Resetting user `i`, whose model `m` (in `models`) is deleted and
     * replaced by the fresh `h` (giving `now`), extends the live and
     * issued handles of `LiveSoFar` to it.
     */
    lemma LiveAfterReset(i: nat, entryLive: set<Handle>, entryIssued: set<Handle>,
                         entryModels: seq<Option<Handle>>, live: set<Handle>, issued: set<Handle>,
                         models: seq<Option<Handle>>, now: seq<Option<Handle>>, m: Handle, h: Handle)
      requires i < |users| == |models| == |now| == |entryModels| && models[i] == Some(m)
      requires entryModels[i].Some? && entryModels[i].value in entryIssued && entryLive <= entryIssued
      requires live == entryLive - HeldBefore(entryModels, i) + HeldBefore(models, i)
      requires Distinct() ==> issued == entryIssued + HeldBefore(models, i)
      requires forall j :: 0 <= j < i ==> models[j].Some? && models[j].value !in entryIssued
      requires m == entryModels[i].value || (m !in entryIssued && entryModels[i].value !in live)
      requires forall j :: 0 <= j < |users| && users[j] != users[i] ==> models[j] != Some(m)
      requires h !in issued && live <= issued
      requires forall j :: 0 <= j < |users| ==>
        now[j] == if models[j] == Some(m) || j == i then Some(h) else models[j]
      ensures live - {m} + {h} == entryLive - HeldBefore(entryModels, i + 1) + HeldBefore(now, i + 1)
      ensures Distinct() ==> issued + {h} == entryIssued + HeldBefore(now, i + 1)
    {
      HeldBeforeSwap(models, now, i + 1, m, h);
      HeldBeforeNext(models, i);
      HeldBeforeNext(entryModels, i);
      if Distinct() {
        forall g | g in HeldBefore(models, i) ensures g != m {
          var j :| 0 <= j < i && j < |models| && models[j].Some? && models[j].value == g;
          assert users[j] != users[i];
        }
      }
    }

    /**
     * Rows `0 .. index - 1` of the matrix hold `rows`, each labelled with its
     * owner's `indexOf`; the slots after them are still zero.
     */
    ghost predicate Written(inputs: array<Row>, labels: array<real>, rows: seq<Row>, index: nat)
      reads inputs, labels
    {
      inputs.Length == labels.Length && index == |rows| <= inputs.Length &&
      (forall k :: 0 <= k < index ==>
         inputs[k] == rows[k] && labels[k] == LabelOf(rows[k], PositionLabels(users))) &&
      (forall k :: index <= k < inputs.Length ==> inputs[k] == Blank && labels[k] == 0.0)
    }

    /** Once every user's rows are written, the arrays hold the assembled matrix and labels. */
    lemma WrittenIsAssembled(inputs: array<Row>, labels: array<real>, index: nat)
      requires AllListed(users) && inputs.Length == FilesSize(Listings(users))
      requires Written(inputs, labels, Rows(Listings(users)[..|users|]), index)
      ensures inputs[..] == Assembled(Listings(users))
      ensures labels[..] == LabelsOf(Assembled(Listings(users)), PositionLabels(users))
    {
      var all := Listings(users);
      assert all[..|users|] == all;
      RowCount(all);
      assert inputs[..] == Assembled(all);
    }

    /**
     * The assembly of user `i` (its `indexOf`, then the inner loop over its
     * directory listing): its rows follow the rows of the users before it.
     */
    method AssembleUser(inputs: array<Row>, labels: array<real>, i: nat, index: nat) returns (next: nat)
      requires AllListed(users) && i < |users|
      requires inputs.Length == FilesSize(Listings(users))
      requires Written(inputs, labels, Rows(Listings(users)[..i]), index)
      modifies inputs, labels
      ensures Written(inputs, labels, Rows(Listings(users)[..i + 1]), next)
    {
      ghost var all := Listings(users);
      var user := users[i];
      var userIndex := IndexOf(users, user);
      assert all[..i + 1][..i] == all[..i];
      ghost var rows := Rows(all[..i + 1]);
      assert rows == Rows(all[..i]) + UserRows(i, all[i]);
      FilesSizePrefix(all, i + 1);
      next := WriteUserRows(inputs, labels, i, user.listing.value, index, userIndex);
      UserRowsWellFormed(i, all[i]);
      forall k | 0 <= k < next
        ensures inputs[k] == rows[k] && labels[k] == LabelOf(rows[k], PositionLabels(users))
      {
        if k >= index {
          assert inputs[k] == UserRows(i, all[i])[k - index];
        }
      }
    }

    /** Deletes the user's model and gives it a fresh one of `ImgTotalSize` inputs. */
    method ResetModel(user: User)
      requires Valid() && user in users
      modifies user, engine
      ensures Valid()
      ensures user.model.Some? && user.model.value !in old(engine.issued)
      ensures engine.issued == old(engine.issued) + {user.model.value}
      ensures engine.live == old(engine.live) - {old(user.model.value)} + {user.model.value}
      ensures engine.origin == old(engine.origin)[user.model.value := Created(ImgTotalSize)]
      ensures engine.trainedWith == old(engine.trainedWith)
      ensures engine.disk == old(engine.disk) && engine.savedFrom == old(engine.savedFrom)
    {
      if user.model.Some? {
        engine.DeleteModel(user.model.value);
      }
      var h := engine.CreateModel(ImgTotalSize);
      user.model := Some(h);
    }

    /**
     * The per-user training tasks, run one after the other: each encodes
     * the shared labels one-vs-rest against the user's `indexOf`, trains
     * the user's model on the cached matrix, and saves it. No handle is
     * created or deleted, and the only files written are the users' model
     * files.
     */
    method TrainAll()
      requires Valid() && normalizedInputs != null
      modifies engine
      ensures Valid()
      ensures engine.State() == old(engine.State()) && ModelsOf(users) == old(ModelsOf(users))
      ensures TrainedUpTo(|users|, normalizedInputs[..], labels[..]) && SavedUpTo(|users|)
      ensures FilesSaved(|users|, old(engine.disk), old(engine.savedFrom))
      ensures RetrainedOnly(|users|, old(engine.trainedWith))
    {
      ghost var matrix, shared := normalizedInputs[..], labels[..];
      assert HeldBefore(ModelsOf(users), 0) == {};
      for i := 0 to |users|
        invariant Valid()
        invariant engine.State() == old(engine.State()) && ModelsOf(users) == old(ModelsOf(users))
        invariant TrainedUpTo(i, matrix, shared)
        invariant SavedUpTo(i)
        invariant FilesSaved(i, old(engine.disk), old(engine.savedFrom))
        invariant RetrainedOnly(i, old(engine.trainedWith))
      {
        TrainStep(i, matrix, shared, old(engine.disk), old(engine.savedFrom), old(engine.trainedWith));
      }
    }

    /**
     * Each of the first `i` users' models was last trained on `matrix` with
     * `shared` encoded one-vs-rest against the user's `indexOf`, over all
     * its samples, with `ImgTotalSize` inputs per sample, `Epochs` epochs
     * and rate `LearningRate`; and its model file exists.
     */
    ghost predicate TrainedUpTo(i: nat, matrix: seq<Row>, shared: seq<real>)
      reads users, engine
    {
      TrainedIn(ModelsOf(users), engine.trainedWith, engine.disk, i, matrix, shared)
    }

    /** `TrainedUpTo` over the given models (by position), training record and files. */
    ghost predicate TrainedIn(models: seq<Option<Handle>>, trained: map<Handle, TrainCall<Row>>, disk: set<string>,
                              i: nat, matrix: seq<Row>, shared: seq<real>)
    {
      forall j :: 0 <= j < i && j < |users| && j < |models| ==>
        models[j].Some? &&
        models[j].value in trained &&
        trained[models[j].value] ==
          TrainCall(matrix, Encode(shared, IndexOf(users, users[j]) as real), |shared|,
                    ImgTotalSize, Epochs, LearningRate) &&
        ModelPath(users[j].name) in disk
    }

    /** Each of the first `i` users with a unique name has its file saved from its model. */
    ghost predicate SavedUpTo(i: nat)
      reads users, engine
    {
      SavedIn(ModelsOf(users), engine.savedFrom, i)
    }

    /** `SavedUpTo` over the given models (by position) and file origins. */
    ghost predicate SavedIn(models: seq<Option<Handle>>, saved: map<string, Handle>, i: nat)
    {
      forall j :: 0 <= j < i && j < |users| && j < |models| && UniqueName(j) ==>
        models[j].Some? &&
        ModelPath(users[j].name) in saved &&
        saved[ModelPath(users[j].name)] == models[j].value
    }

    /**
     * Starting from the files `disk0` (last saved from `saved0`), the files
     * written are exactly the first `i` users' model files; no other file
     * changes its origin.
     */
    ghost predicate FilesSaved(i: nat, disk0: set<string>, saved0: map<string, Handle>)
      reads engine
    {
      FilesIn(engine.disk, engine.savedFrom, i, disk0, saved0)
    }

    /** `FilesSaved` over the given files and origins. */
    ghost predicate FilesIn(disk: set<string>, saved: map<string, Handle>, i: nat,
                            disk0: set<string>, saved0: map<string, Handle>)
    {
      disk == disk0 + PathsBefore(i) &&
      saved.Keys == saved0.Keys + PathsBefore(i) &&
      forall p :: p in saved0 && p !in PathsBefore(i) ==> saved[p] == saved0[p]
    }

    /**
     * Starting from the training records `trained0`, the records now are
     * those plus the handles of the first `i` users; every other handle
     * keeps its record. With `i == |users|` the retrained handles are
     * exactly `Handles()`.
     */
    ghost predicate RetrainedOnly(i: nat, trained0: map<Handle, TrainCall<Row>>)
      reads users, engine
    {
      RetrainedIn(ModelsOf(users), engine.trainedWith, i, trained0)
    }

    /** `RetrainedOnly` over the given models (by position) and training records. */
    ghost predicate RetrainedIn(models: seq<Option<Handle>>, trained: map<Handle, TrainCall<Row>>, i: nat,
                                trained0: map<Handle, TrainCall<Row>>)
    {
      trained.Keys == trained0.Keys + HeldBefore(models, i) &&
      forall g :: g in trained0 && g !in HeldBefore(models, i) ==> trained[g] == trained0[g]
    }

    /** Recording a training of user `i`'s model extends `RetrainedIn` to user `i`. */
    lemma RetrainedStep(models: seq<Option<Handle>>, i: nat, trained: map<Handle, TrainCall<Row>>,
                        call: TrainCall<Row>, trained0: map<Handle, TrainCall<Row>>)
      requires i < |models| && models[i].Some? && RetrainedIn(models, trained, i, trained0)
      ensures RetrainedIn(models, trained[models[i].value := call], i + 1, trained0)
    {
      HeldBeforeNext(models, i);
    }

    /**
     * Training user `i`'s model and writing its file extends `TrainedIn` to
     * user `i`, when a model is held by one user only.
     */
    lemma TrainedStep(models: seq<Option<Handle>>, i: nat, matrix: seq<Row>, shared: seq<real>,
                      trained: map<Handle, TrainCall<Row>>, disk: set<string>)
      requires i < |users| == |models| && models[i].Some? && TrainedIn(models, trained, disk, i, matrix, shared)
      requires forall j :: 0 <= j < |users| ==> (users[j] == users[i] <==> models[j] == models[i])
      ensures TrainedIn(models, trained[models[i].value :=
                TrainCall(matrix, Encode(shared, IndexOf(users, users[i]) as real), |shared|,
                          ImgTotalSize, Epochs, LearningRate)],
                        disk + {ModelPath(users[i].name)}, i + 1, matrix, shared)
    {
    }

    /** Saving user `i`'s model to its file extends `SavedIn` to user `i`. */
    lemma SavedStep(models: seq<Option<Handle>>, i: nat, saved: map<string, Handle>)
      requires i < |users| == |models| && models[i].Some? && SavedIn(models, saved, i)
      requires forall j :: 0 <= j < |users| && users[j] == users[i] ==> models[j] == models[i]
      ensures SavedIn(models, saved[ModelPath(users[i].name) := models[i].value], i + 1)
    {
      forall j | 0 <= j < i && UniqueName(j) && users[j] != users[i]
        ensures ModelPath(users[j].name) != ModelPath(users[i].name)
      {
        ModelPathInjective(users[j].name, users[i].name);
      }
    }

    /** Writing user `i`'s model file extends `FilesIn` to user `i`. */
    lemma FilesStep(i: nat, disk: set<string>, saved: map<string, Handle>, h: Handle,
                    disk0: set<string>, saved0: map<string, Handle>)
      requires i < |users| && FilesIn(disk, saved, i, disk0, saved0)
      ensures FilesIn(disk + {ModelPath(users[i].name)}, saved[ModelPath(users[i].name) := h], i + 1, disk0, saved0)
    {
      PathsBeforeStep(i);
    }

    /** One iteration of the training loop: user `i`'s training run. */
    method TrainStep(i: nat, ghost matrix: seq<Row>, ghost shared: seq<real>,
                     ghost disk0: set<string>, ghost saved0: map<string, Handle>,
                     ghost trained0: map<Handle, TrainCall<Row>>)
      requires Valid() && normalizedInputs != null && i < |users|
      requires normalizedInputs[..] == matrix && labels[..] == shared
      requires TrainedUpTo(i, matrix, shared) && SavedUpTo(i) && FilesSaved(i, disk0, saved0)
      requires RetrainedOnly(i, trained0)
      modifies engine
      ensures Valid()
      ensures engine.State() == old(engine.State()) && ModelsOf(users) == old(ModelsOf(users))
      ensures TrainedUpTo(i + 1, matrix, shared) && SavedUpTo(i + 1) && FilesSaved(i + 1, disk0, saved0)
      ensures RetrainedOnly(i + 1, trained0)
    {
      var user := users[i];
      ghost var models := ModelsOf(users);
      ghost var disk, saved, trained := engine.disk, engine.savedFrom, engine.trainedWith;
      TrainedStep(models, i, matrix, shared, trained, disk);
      SavedStep(models, i, saved);
      FilesStep(i, disk, saved, user.model.value, disk0, saved0);
      RetrainedStep(models, i, trained, TrainCall(matrix, Encode(shared, IndexOf(users, user) as real), |shared|,
                                                  ImgTotalSize, Epochs, LearningRate), trained0);
      TrainTask(user);
    }

    /**
     * One user's training task: encode a copy of the shared labels
     * one-vs-rest against the user's `indexOf`, train the user's model on
     * the cached matrix with them, and save the model to its file.
     */
    method TrainTask(user: User)
      requires Valid() && normalizedInputs != null && user in users
      modifies engine
      ensures Valid()
      ensures engine.issued == old(engine.issued) && engine.live == old(engine.live)
      ensures engine.origin == old(engine.origin)
      ensures engine.trainedWith == old(engine.trainedWith)[user.model.value :=
        TrainCall(normalizedInputs[..], Encode(labels[..], IndexOf(users, user) as real), labels.Length,
                  ImgTotalSize, Epochs, LearningRate)]
      ensures engine.disk == old(engine.disk) + {ModelPath(user.name)}
      ensures engine.savedFrom == old(engine.savedFrom)[ModelPath(user.name) := user.model.value]
    {
      var userIndex := IndexOf(users, user);
      var normalizedLabels := EncodeLabels(labels, userIndex);
      TrainUser(user, normalizedInputs, normalizedLabels, normalizedLabels.Length, ImgTotalSize, Epochs, LearningRate);
      Save(user, ModelPath(user.name));
    }

    /** `train(user, inputs, labels, ...)`: trains the user's model with the given arguments. */
    method TrainUser(user: User, inputs: array<Row>, labels: array<real>, length: int, dataSize: int,
                     epoch: int, alpha: real)
      requires engine.Valid() && user.model.Some? && user.model.value in engine.live
      modifies engine
      ensures engine.Valid()
      ensures engine.trainedWith ==
        old(engine.trainedWith)[user.model.value := TrainCall(inputs[..], labels[..], length, dataSize, epoch, alpha)]
      ensures engine.issued == old(engine.issued) && engine.live == old(engine.live)
      ensures engine.origin == old(engine.origin)
      ensures engine.disk == old(engine.disk) && engine.savedFrom == old(engine.savedFrom)
    {
      engine.TrainModel(user.model.value, inputs[..], labels[..], length, dataSize, epoch, alpha);
    }

    /** `save(user, file)`: writes the user's model to `path`. */
    method Save(user: User, path: string)
      requires engine.Valid() && user.model.Some? && user.model.value in engine.live
      modifies engine
      ensures engine.Valid()
      ensures engine.disk == old(engine.disk) + {path}
      ensures engine.savedFrom == old(engine.savedFrom)[path := user.model.value]
      ensures engine.issued == old(engine.issued) && engine.live == old(engine.live)
      ensures engine.origin == old(engine.origin) && engine.trainedWith == old(engine.trainedWith)
    {
      engine.SaveModel(user.model.value, ImgTotalSize, path);
    }
  }
}
