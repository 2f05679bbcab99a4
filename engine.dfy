/**
 * The native linear-model library, reached through JNA, seen only through
 * its handles: create, load, train, save and delete. The model arithmetic
 * and the file format are not modelled. What is kept: which handles are
 * live, how each one came to be, the arguments of the last `trainModel`
 * call on each, and which model files exist on disk.
 */
module Engine {

  /** An opaque model handle (a native pointer in the source). */
  datatype Handle = Handle(id: nat)

  /** Where a handle's parameters came from. */
  datatype Origin = Created(size: nat) | Restored(path: string)

  /** The arguments of one `trainModel` call: samples, labels, sample count, inputs per sample, epochs, rate. */
  datatype TrainCall<R> = TrainCall(inputs: seq<R>, labels: seq<real>, length: int, dataSize: int,
                                    epochs: int, alpha: real)

  /** The handle bookkeeping at one moment: the handles issued, the live ones, and where each came from. */
  datatype HandleState = HandleState(issued: set<Handle>, live: set<Handle>, origin: map<Handle, Origin>)

  /** The library over samples of type `R`. */
  class ModelEngine<R> {
    var next: nat                                  // id of the next handle to issue
    ghost var issued: set<Handle>                  // every handle ever issued
    ghost var live: set<Handle>                    // issued and not yet deleted
    ghost var origin: map<Handle, Origin>
    ghost var trainedWith: map<Handle, TrainCall<R>>  // arguments of each handle's latest training
    var disk: set<string>                          // paths of the model files on disk
    ghost var savedFrom: map<string, Handle>       // the handle each file was last saved from

    ghost predicate Valid()
      reads this
    {
      live <= issued && issued == origin.Keys &&
      (forall h :: h in issued ==> h.id < next)
    }

    /** The handle bookkeeping now. */
    ghost function State(): HandleState
      reads this
    {
      HandleState(issued, live, origin)
    }

    /** A library with no handles yet, over a disk holding the model files `files`. */
    constructor (files: set<string>)
      ensures Valid()
      ensures issued == {} && live == {} && trainedWith == map[]
      ensures disk == files && savedFrom == map[]
    {
      next := 0;
      issued, live, origin, trainedWith := {}, {}, map[], map[];
      disk, savedFrom := files, map[];
    }

    /** Whether a model file exists at `path` (the client's `File.exists()`). */
    predicate Exists(path: string)
      reads this
    {
      path in disk
    }

    /** `createModel(size)`: a fresh, untrained model of `size` inputs. */
    method CreateModel(size: nat) returns (h: Handle)
      requires Valid()
      modifies this
      ensures Valid()
      ensures h !in old(issued) && issued == old(issued) + {h} && live == old(live) + {h}
      ensures origin == old(origin)[h := Created(size)]
      ensures trainedWith == old(trainedWith) && disk == old(disk) && savedFrom == old(savedFrom)
    {
      h := Handle(next);
      next := next + 1;
      issued, live := issued + {h}, live + {h};
      origin := origin[h := Created(size)];
    }

    /** `loadModel(path)`: a fresh handle holding the model saved at `path`. */
    method LoadModel(path: string) returns (h: Handle)
      requires Valid()
      modifies this
      ensures Valid()
      ensures h !in old(issued) && issued == old(issued) + {h} && live == old(live) + {h}
      ensures origin == old(origin)[h := Restored(path)]
      ensures trainedWith == old(trainedWith) && disk == old(disk) && savedFrom == old(savedFrom)
    {
      h := Handle(next);
      next := next + 1;
      issued, live := issued + {h}, live + {h};
      origin := origin[h := Restored(path)];
    }

    /** `deleteModel(h)`: releases the model; the handle is dead afterwards. */
    method DeleteModel(h: Handle)
      requires Valid() && h in live
      modifies this
      ensures Valid()
      ensures live == old(live) - {h}
      ensures issued == old(issued) && origin == old(origin) && next == old(next)
      ensures trainedWith == old(trainedWith) && disk == old(disk) && savedFrom == old(savedFrom)
    {
      live := live - {h};
    }

    /**
     * `trainModel(h, inputs, labels, length, dataSize, epochs, alpha)`:
     * updates the parameters of `h`; the call's arguments are recorded.
     */
    method TrainModel(h: Handle, inputs: seq<R>, labels: seq<real>, length: int, dataSize: int,
                      epochs: int, alpha: real)
      requires Valid() && h in live
      modifies this
      ensures Valid()
      ensures trainedWith == old(trainedWith)[h := TrainCall(inputs, labels, length, dataSize, epochs, alpha)]
      ensures issued == old(issued) && live == old(live) && origin == old(origin) && next == old(next)
      ensures disk == old(disk) && savedFrom == old(savedFrom)
    {
      trainedWith := trainedWith[h := TrainCall(inputs, labels, length, dataSize, epochs, alpha)];
    }

    /** `saveModel(h, size, path)`: writes the model of `h` to the file `path`. */
    method SaveModel(h: Handle, size: nat, path: string)
      requires Valid() && h in live
      modifies this
      ensures Valid()
      ensures disk == old(disk) + {path} && savedFrom == old(savedFrom)[path := h]
      ensures issued == old(issued) && live == old(live) && origin == old(origin) && next == old(next)
      ensures trainedWith == old(trainedWith)
    {
      disk := disk + {path};
      savedFrom := savedFrom[path := h];
    }
  }
}
