# FaceID linear network and perceptron utilities, in Dafny

This project models two pieces of the FaceID face-identification system.

**The client's linear network** (`LinearNeuralNetwork`). It keeps one native linear model per gallery user:
- `addUser` restores the user's model from `models/linear/<name>.model` when that file exists, and otherwise creates a fresh model of 48 × 48 × 1 inputs.
- The first `train()` call does three things:
  - it deletes every user's model and creates a new one;
  - it assembles the training matrix from every user's image directory, in list order, skipping the entry named `model`;
  - it labels each row with its user's `indexOf`.
- Later calls reuse the cached matrix and the existing models.
- Each user's model is then trained on a one-vs-rest copy of the labels, made with two `replaceWhere` passes, and saved to its file.
- `predict` scores every user that holds a model and reduces the scores with `Stream.max` and the comparator `(int) (a - b)`. It returns the winner paired with 0.

**The perceptron library's helpers** (`utils.cpp`):
- `split`: strtok tokenising, where the delimiter is a set of characters;
- `vectorToString`: formats a vector as `[a, b, c]`;
- `vectorToArray`: copies a vector into a fresh array;
- `imax`: the larger of two ints.

The modules are:
- `Optional`: the Option type.
- `Utils`: `utils.cpp`. `Tokens` is the reference definition of what repeated `strtok` calls yield. `Strtok` is one call, with its hidden cursor made explicit. `Split` is the `while` loop over the calls.
- `Engine`: the native model library reached through JNA. It is a `ModelEngine` class that issues opaque `Handle` values. Ghost state records which handles are live, how each was made, the arguments of the last `trainModel` call on each (samples, labels, sample count, inputs per sample, epochs and rate), and which handle each model file was last saved from. The model files on disk are a set of paths.
- `OneVsRest`: the label encoding. `Encode` is the one-vs-rest rule. `TwoPass` is what the two `replaceWhere` passes compute. `ReplaceWhere` and `EncodeLabels` are the in-place array code.
- `Dataset`: the pure description of the assembled matrix. A row records the list position of its user and the file it was read from. The pixels are not modelled.
- `Prediction`: Java's truncating `(int)` cast, the comparator, and the left-to-right reduction of `Stream.max`.
- `LinearNetwork`:
  - `User` is a class whose `model` field `setNeuralNetwork` updates.
  - `LinearNeuralNetwork` is a class. Its `normalizedInputs` and `labels` arrays are cached on the first training.

Behaviour of the code worth knowing:
- Prediction is not a strict arg-max with ties going to the first user. The reduction keeps the current best unless the next score is at least 1 higher (`Prediction.NextWinsIff`). So a later user scoring 0.5 more than the first one loses (`Prediction.MaxIndexIsNotArgMax`).
- The returned value is 0, not the winner's score.
- A user whose directory holds no entry other than `model` raises no error. Training goes on with no rows for that user.
- Every skipped `model` entry still counts in `filesSize`. It leaves a zero row labelled 0, so the one-vs-rest labels of the user at list position 0 count it as one of that user's samples (`Dataset.PaddingCountsForFirstUser`).

## Model

| member | source | states |
|---|---|---|
| Utils.IMax | project/lib/multilayer-perceptron/src/utils/utils.cpp:44-46 | the result is at least `a` and at least `b`, and is one of the two |
| Utils.Strtok | project/lib/multilayer-perceptron/src/utils/utils.cpp:33-36 | one `strtok` call from a cursor. It returns no token exactly when only delimiters remain. Otherwise it returns the first token of the rest, and the rest's tokens are that token followed by the tokens after the new cursor |
| Utils.TokensSkip | project/lib/multilayer-perceptron/src/utils/utils.cpp:33-36 | a delimiter character at the cursor is skipped: the tokens from there are the tokens from the next character |
| Utils.TokensTake | project/lib/multilayer-perceptron/src/utils/utils.cpp:33-36 | a run of non-delimiter characters ended by a delimiter or the end of the text is the next token, and the tokens after it start past that delimiter |
| Utils.Split | project/lib/multilayer-perceptron/src/utils/utils.cpp:28-42 | the strtok loop returns exactly `Tokens(str, delimiter)`, the maximal runs of non-delimiter characters, in order |
| Utils.TokensNonEmpty | project/lib/multilayer-perceptron/src/utils/utils.cpp:33-37 | no token is empty. Leading, trailing and repeated delimiters yield nothing |
| Utils.TokensDelimiterFree | project/lib/multilayer-perceptron/src/utils/utils.cpp:33-36 | no token contains any character of `delimiter` (a character set, not a substring) |
| Utils.TokensConcat | project/lib/multilayer-perceptron/src/utils/utils.cpp:28-41 | the tokens, concatenated in order, equal the input with every delimiter character removed |
| Utils.TokensEmptyIff | project/lib/multilayer-perceptron/src/utils/utils.cpp:33-34 | there are no tokens if and only if the input is empty or consists only of delimiter characters |
| Utils.TokensSplitAt | project/lib/multilayer-perceptron/src/utils/utils.cpp:33-37 | a delimiter character cuts the input into two parts that are tokenised independently |
| Utils.VectorToString | project/lib/multilayer-perceptron/src/utils/utils.cpp:8-18 | the loop builds "[" + the formatted elements in order, joined by ", " + "]". The text starts with `[` and ends with `]`, and an empty vector gives `[]` |
| Utils.JoinSeparatorCount | project/lib/multilayer-perceptron/src/utils/utils.cpp:11-15 | n elements without commas give exactly n - 1 commas, one per separator |
| Utils.SplitJoinRoundTrip | project/lib/multilayer-perceptron/src/utils/utils.cpp:8-42 | splitting the joined text on ", " gives back the parts, when each part is non-empty and has no comma or space |
| Utils.VectorToArray | project/lib/multilayer-perceptron/src/utils/utils.cpp:20-26 | a fresh array of length `vec.size()` with `array[i] == vec[i]` for every i |
| Engine.ModelEngine.CreateModel | project/app/client/src/main/java/fr/esgi/faceid/ai/LinearNeuralNetwork.java:87 | `createModel` returns a handle never issued before, now live, created with the given size. Nothing else changes |
| Engine.ModelEngine.LoadModel | project/app/client/src/main/java/fr/esgi/faceid/ai/LinearNeuralNetwork.java:140 | `loadModel` returns a handle never issued before, now live, restored from the path. Nothing else changes |
| Engine.ModelEngine.DeleteModel | project/app/client/src/main/java/fr/esgi/faceid/ai/LinearNeuralNetwork.java:85 | `deleteModel` of a live handle makes it dead. Nothing else changes |
| Engine.ModelEngine.TrainModel | project/app/client/src/main/java/fr/esgi/faceid/ai/LinearNeuralNetwork.java:151 | `trainModel` on a live handle records every argument of the call: samples, labels, sample count, inputs per sample, epochs and rate. Nothing else changes |
| Engine.ModelEngine.SaveModel | project/app/client/src/main/java/fr/esgi/faceid/ai/LinearNeuralNetwork.java:155 | `saveModel` puts the file on disk and records the handle it was saved from. Nothing else changes |
| OneVsRest.ReplaceWhere | project/app/client/src/main/java/fr/esgi/faceid/ai/LinearNeuralNetwork.java:112-113 | `replaceWhere` rewrites, in place, exactly the entries where the condition holds |
| OneVsRest.TwoPassIsOneVsRest | project/app/client/src/main/java/fr/esgi/faceid/ai/LinearNeuralNetwork.java:112-113 | the two passes equal the one-vs-rest rule if and only if the target is not -1 or every label already is -1 |
| OneVsRest.TwoPassAtIndex | project/app/client/src/main/java/fr/esgi/faceid/ai/LinearNeuralNetwork.java:109-113 | for a list position (never -1), the two passes give +1 where the label is the position and -1 elsewhere |
| OneVsRest.EncodeCounts | project/app/client/src/main/java/fr/esgi/faceid/ai/LinearNeuralNetwork.java:110-113 | the encoding keeps the length. It has as many +1 entries as labels equal to the target, and -1 everywhere else |
| OneVsRest.EncodeLabels | project/app/client/src/main/java/fr/esgi/faceid/ai/LinearNeuralNetwork.java:109-113 | `dup` plus the two passes. The result is a fresh array holding the two-pass labels, which are the one-vs-rest labels for any non-negative index, and the shared `labels` array is unchanged |
| Dataset.IndexOf | project/app/client/src/main/java/fr/esgi/faceid/ai/LinearNeuralNetwork.java:89 | `indexOf` gives a position holding the user with no earlier occurrence, and -1 if and only if the user is absent |
| Dataset.IndexOfDistinct | project/app/client/src/main/java/fr/esgi/faceid/ai/LinearNeuralNetwork.java:89 | on distinct users, `indexOf` of the user at position p is p |
| Dataset.PositionLabelsNameUser | project/app/client/src/main/java/fr/esgi/faceid/ai/LinearNeuralNetwork.java:89-95 | every row label is a position no later than the user's own, and that position holds the same user |
| Dataset.UserRows | project/app/client/src/main/java/fr/esgi/faceid/ai/LinearNeuralNetwork.java:91-92 | a user contributes one row per directory entry other than `model` |
| Dataset.UserRowsWellFormed | project/app/client/src/main/java/fr/esgi/faceid/ai/LinearNeuralNetwork.java:91-97 | each of a user's rows is an image of that user, read from an entry of its listing, never the `model` entry |
| Dataset.Rows | project/app/client/src/main/java/fr/esgi/faceid/ai/LinearNeuralNetwork.java:82-98 | the written rows number `filesSize` minus the `model` entries, and all are images |
| Dataset.RowsWellFormed | project/app/client/src/main/java/fr/esgi/faceid/ai/LinearNeuralNetwork.java:82-98 | every written row is an image of a listed user, from that user's listing, never a `model` entry |
| Dataset.RowsOwnerOrdered | project/app/client/src/main/java/fr/esgi/faceid/ai/LinearNeuralNetwork.java:82-98 | rows come in user order: a later row never belongs to an earlier user |
| Dataset.RowCount | project/app/client/src/main/java/fr/esgi/faceid/ai/LinearNeuralNetwork.java:77-98 | the written rows are exactly `filesSize` minus the `model` entries, so at most `filesSize` |
| Dataset.AssembledLabels | project/app/client/src/main/java/fr/esgi/faceid/ai/LinearNeuralNetwork.java:80-98 | each written row's label is `indexOf` of the row's user. Every slot after the written rows is a zero row labelled 0 |
| Dataset.PaddingCountsForFirstUser | project/app/client/src/main/java/fr/esgi/faceid/ai/LinearNeuralNetwork.java:81-113 | the zero rows left by `model` entries are +1 in the one-vs-rest labels of the user at position 0 |
| Prediction.TruncateToInt | project/app/client/src/main/java/fr/esgi/faceid/ai/LinearNeuralNetwork.java:63 | the `(int)` cast truncates toward zero: within 1 of the value, on the side of 0 |
| Prediction.Compare | project/app/client/src/main/java/fr/esgi/faceid/ai/LinearNeuralNetwork.java:63 | the comparator `(int) (a - b)` is negative exactly when `b` is at least 1 more, positive exactly when `a` is at least 1 more, and 0 for every closer pair |
| Prediction.NextWinsIff | project/app/client/src/main/java/fr/esgi/faceid/ai/LinearNeuralNetwork.java:63 | the comparator lets the next candidate replace the best if and only if it scores at least 1 more |
| Prediction.MaxIndex | project/app/client/src/main/java/fr/esgi/faceid/ai/LinearNeuralNetwork.java:63-64 | the `Stream.max` reduction, left to right, returns a position among the candidates; which one is stated by the `MaxIndex` lemmas below |
| Prediction.MaxIndexNearMaximum | project/app/client/src/main/java/fr/esgi/faceid/ai/LinearNeuralNetwork.java:57-64 | the reduction's winner scores within 1 of every candidate and at least as much as the first |
| Prediction.MaxIndexFirstIff | project/app/client/src/main/java/fr/esgi/faceid/ai/LinearNeuralNetwork.java:63 | the first candidate wins if and only if no candidate scores 1 or more above it (so it wins ties) |
| Prediction.MaxIndexLaterBeatsFirst | project/app/client/src/main/java/fr/esgi/faceid/ai/LinearNeuralNetwork.java:63 | a candidate other than the first wins only with a score at least 1 above the first's |
| Prediction.MaxIndexIsNotArgMax | project/app/client/src/main/java/fr/esgi/faceid/ai/LinearNeuralNetwork.java:63 | with scores 0 and 0.5 the first candidate is returned: the reduction is not an arg-max |
| LinearNetwork.ModelPathInjective | project/app/client/src/main/java/fr/esgi/faceid/ai/LinearNeuralNetwork.java:117 | different user names give different model paths |
| LinearNetwork.ModelPath | project/app/client/src/main/java/fr/esgi/faceid/ai/LinearNeuralNetwork.java:117 | the model file of a user: `models/linear/` then the name then `.model` (its injectivity is `ModelPathInjective`) |
| LinearNetwork.WithModel | project/app/client/src/main/java/fr/esgi/faceid/ai/LinearNeuralNetwork.java:58 | the filter keeps users from the list that hold a model, and keeps every such user. It is no longer than the list, is the whole list when every user holds a model, and starts with the first user holding a model |
| LinearNetwork.Winner | project/app/client/src/main/java/fr/esgi/faceid/ai/LinearNeuralNetwork.java:57-64 | the user the filter, map and `max` keep is a user from the list that holds a model |
| LinearNetwork.WinnerNearMaximum | project/app/client/src/main/java/fr/esgi/faceid/ai/LinearNeuralNetwork.java:57-64 | the reduction's winner among the users with a model scores within 1 of each of them |
| LinearNetwork.WinnerFirstUnlessBeaten | project/app/client/src/main/java/fr/esgi/faceid/ai/LinearNeuralNetwork.java:57-64 | the first user holding a model wins if and only if no user holding a model scores 1 or more above it; a different winner scores at least 1 more than it |
| LinearNetwork.Scores | project/app/client/src/main/java/fr/esgi/faceid/ai/LinearNeuralNetwork.java:59-62 | the `map` step: one score per candidate, in order (the model's output is the parameter `score`) |
| LinearNetwork.WriteUserRows | project/app/client/src/main/java/fr/esgi/faceid/ai/LinearNeuralNetwork.java:91-98 | the inner loop writes the user's rows at consecutive indices from `index`, each labelled with the user's index, and advances `index` by their count. No other slot changes |
| LinearNetwork.UserRowsNext | project/app/client/src/main/java/fr/esgi/faceid/ai/LinearNeuralNetwork.java:91-92 | one more directory entry adds its row, unless it is the `model` entry |
| LinearNetwork.LinearNeuralNetwork.constructor | project/app/client/src/main/java/fr/esgi/faceid/ai/LinearNeuralNetwork.java:45-49 | after `addUser` on each user in list order, every user holds a handle issued here, restored when its model file existed and created otherwise. The live handles grow by exactly the handles issued, and for a list without repeated users those are exactly the users' handles. Files, the handles they were saved from and the training records are unchanged, and no data is cached |
| LinearNetwork.LinearNeuralNetwork.AdmitStep | project/app/client/src/main/java/fr/esgi/faceid/ai/LinearNeuralNetwork.java:48 | one `addUser` in the admission loop extends the admitted users to the next one: distinct fresh live handles, what admission gives for each, and the live and issued handles grown by exactly them |
| LinearNetwork.LinearNeuralNetwork.AdmitStepIn | project/app/client/src/main/java/fr/esgi/faceid/ai/LinearNeuralNetwork.java:136-143 | giving user i a fresh handle, issued and live now and with the origin admission gives, extends the admitted users to user i |
| LinearNetwork.LinearNeuralNetwork.AdmitAll | project/app/client/src/main/java/fr/esgi/faceid/ai/LinearNeuralNetwork.java:48 | the admission loop admits every user: each holds a fresh live handle with the origin admission gives, distinct users hold distinct handles, the live handles grow by exactly the handles issued, and files and training records are unchanged |
| LinearNetwork.LinearNeuralNetwork.AdmittedAll | project/app/client/src/main/java/fr/esgi/faceid/ai/LinearNeuralNetwork.java:48 | once every user is admitted, every user holds a live model and no two users share one |
| LinearNetwork.LinearNeuralNetwork.AddUser | project/app/client/src/main/java/fr/esgi/faceid/ai/LinearNeuralNetwork.java:136-144 | the user's handle is never null afterwards. It is fresh: loaded from `models/linear/<name>.model` if that exists, else created with `IMG_TOTAL_SIZE` inputs |
| Engine.ModelEngine.Exists | project/app/client/src/main/java/fr/esgi/faceid/ai/LinearNeuralNetwork.java:137-138 | `File.exists()` of a model path is membership in the set of files on disk |
| LinearNetwork.LinearNeuralNetwork.Predict | project/app/client/src/main/java/fr/esgi/faceid/ai/LinearNeuralNetwork.java:51-73 | the result is none on an empty gallery, and none if and only if no user holds a model. Otherwise it is a user from the list holding a model, paired with 0, and no user scores 1 or more above it. The first user holding a model is returned if and only if no user scores 1 or more above it, and any other winner scores at least 1 more than it |
| LinearNetwork.LinearNeuralNetwork.Train | project/app/client/src/main/java/fr/esgi/faceid/ai/LinearNeuralNetwork.java:76-133 | an unlistable directory changes nothing. Otherwise, on the first call the cached matrix and labels are fresh and equal the assembled ones, and the models are replaced as `ModelsReplaced` states (fresh handles of `IMG_TOTAL_SIZE` inputs, the old ones dead, the live set changed by exactly those, older handles keeping their origin). Later calls keep the cache, the users' handles and the handle bookkeeping. Then each user's model was last trained with the full `trainModel` arguments: the cached matrix, the shared labels encoded one-vs-rest against the user's `indexOf`, their length, `IMG_TOTAL_SIZE`, 1000 epochs and rate 0.01; the files on disk are the old ones plus exactly the users' model files, every other file keeps the handle it was saved from, and each uniquely named user's file was saved from its model. The training records are the old ones plus exactly the users' handles, and every other handle, such as one deleted at reset, keeps its record |
| LinearNetwork.LinearNeuralNetwork.CountFiles | project/app/client/src/main/java/fr/esgi/faceid/ai/LinearNeuralNetwork.java:77 | fails if and only if some directory cannot be listed. Otherwise it returns the total entry count, `model` entries included |
| LinearNetwork.LinearNeuralNetwork.TrainListed | project/app/client/src/main/java/fr/esgi/faceid/ai/LinearNeuralNetwork.java:79-133 | the work of `train()` once `filesSize` is known: the same cache, model replacement, training records (other handles' records kept) and files as `Train` |
| LinearNetwork.LinearNeuralNetwork.FirstAssembly | project/app/client/src/main/java/fr/esgi/faceid/ai/LinearNeuralNetwork.java:80-102 | fresh zeroed labels are allocated. Afterwards the cached matrix and labels equal the assembled ones and the models are replaced as `ModelsReplaced` states. No model is trained and no file changes |
| LinearNetwork.LinearNeuralNetwork.ResetAndAssemble | project/app/client/src/main/java/fr/esgi/faceid/ai/LinearNeuralNetwork.java:82-99 | the matrix and labels are exactly the assembled ones. Every user holds a handle issued here with `IMG_TOTAL_SIZE` inputs and the handles held before are dead. The live handles are the old ones less those plus the new ones; for a list without repeated users the handles issued are exactly the new ones. Older handles keep their origin, and training records and files are unchanged |
| LinearNetwork.LinearNeuralNetwork.ResetStart | project/app/client/src/main/java/fr/esgi/faceid/ai/LinearNeuralNetwork.java:82-83 | before the loop, with every user holding a live model, no user has been reset |
| LinearNetwork.LinearNeuralNetwork.ResetAll | project/app/client/src/main/java/fr/esgi/faceid/ai/LinearNeuralNetwork.java:83-99 | once every user has been reset, every user holds a fresh model and none of the models held at entry is live |
| LinearNetwork.LinearNeuralNetwork.AssembleStep | project/app/client/src/main/java/fr/esgi/faceid/ai/LinearNeuralNetwork.java:84-98 | one outer iteration extends both the reset and the written rows to the next user |
| LinearNetwork.LinearNeuralNetwork.AssembleUser | project/app/client/src/main/java/fr/esgi/faceid/ai/LinearNeuralNetwork.java:89-98 | one user's rows follow the previous users' rows, and each is labelled with the user's `indexOf` |
| LinearNetwork.LinearNeuralNetwork.WrittenIsAssembled | project/app/client/src/main/java/fr/esgi/faceid/ai/LinearNeuralNetwork.java:83-101 | once every user's rows are written, the arrays hold the assembled matrix and its labels, zero rows included |
| LinearNetwork.LinearNeuralNetwork.ResetStep | project/app/client/src/main/java/fr/esgi/faceid/ai/LinearNeuralNetwork.java:84-87 | resetting user i extends the set of reset users to the first i + 1 users |
| LinearNetwork.LinearNeuralNetwork.ResetStepIn | project/app/client/src/main/java/fr/esgi/faceid/ai/LinearNeuralNetwork.java:84-87 | deleting user i's model and giving it a fresh one, at every position holding that user, extends the reset so far to user i |
| LinearNetwork.LinearNeuralNetwork.LiveAfterReset | project/app/client/src/main/java/fr/esgi/faceid/ai/LinearNeuralNetwork.java:84-87 | after user i's reset the live handles are those live at entry, less the first i + 1 users' entry models, plus their models now; for a list without repeated users the handles issued since entry are exactly their models now |
| LinearNetwork.LinearNeuralNetwork.ResetModel | project/app/client/src/main/java/fr/esgi/faceid/ai/LinearNeuralNetwork.java:84-87 | the old handle is deleted before the user gets a fresh live one of `IMG_TOTAL_SIZE` inputs |
| LinearNetwork.LinearNeuralNetwork.TrainAll | project/app/client/src/main/java/fr/esgi/faceid/ai/LinearNeuralNetwork.java:104-132 | after every task, each user's model was last trained with the full `trainModel` arguments: the cached matrix, the shared labels encoded one-vs-rest against the user's `indexOf`, their length, `IMG_TOTAL_SIZE`, 1000 epochs and rate 0.01. No handle is created, deleted or reassigned, and the files on disk are the old ones plus exactly the users' model files, every other file keeps the handle it was saved from, and each uniquely named user's file was saved from its model. The training records are the old ones plus exactly the users' handles, and every other handle, such as one deleted at reset, keeps its record |
| LinearNetwork.LinearNeuralNetwork.TrainStep | project/app/client/src/main/java/fr/esgi/faceid/ai/LinearNeuralNetwork.java:106-122 | one task extends the trained and saved users to the next user, without undoing earlier ones, and extends the retrained handles by exactly that user's handle |
| LinearNetwork.LinearNeuralNetwork.TrainedStep | project/app/client/src/main/java/fr/esgi/faceid/ai/LinearNeuralNetwork.java:115-117 | training user i's model and writing its file extends the trained users to user i, when no other user holds that model |
| LinearNetwork.LinearNeuralNetwork.SavedStep | project/app/client/src/main/java/fr/esgi/faceid/ai/LinearNeuralNetwork.java:117 | saving user i's model to its file keeps every earlier uniquely named user's file saved from its model, and adds user i's |
| LinearNetwork.LinearNeuralNetwork.FilesStep | project/app/client/src/main/java/fr/esgi/faceid/ai/LinearNeuralNetwork.java:117 | writing user i's model file extends the written files to exactly the first i + 1 users' files, leaving other files' origins alone |
| LinearNetwork.LinearNeuralNetwork.RetrainedStep | project/app/client/src/main/java/fr/esgi/faceid/ai/LinearNeuralNetwork.java:115-116 | recording the training of user i's model adds exactly its handle to the retrained handles, and every other handle keeps its record |
| LinearNetwork.LinearNeuralNetwork.TrainTask | project/app/client/src/main/java/fr/esgi/faceid/ai/LinearNeuralNetwork.java:107-122 | the user's model is trained with the cached matrix, the one-vs-rest encoding of the labels against its `indexOf`, their length, `IMG_TOTAL_SIZE`, 1000 epochs and rate 0.01, and saved to `models/linear/<name>.model`. No handle is created or deleted |
| LinearNetwork.LinearNeuralNetwork.TrainUser | project/app/client/src/main/java/fr/esgi/faceid/ai/LinearNeuralNetwork.java:150-152 | the user's model is trained with exactly the given arguments. Nothing else changes |
| LinearNetwork.LinearNeuralNetwork.Save | project/app/client/src/main/java/fr/esgi/faceid/ai/LinearNeuralNetwork.java:154-156 | the file is written from the user's model. Nothing else changes |

## Left out

- JNA loading and the native engine's internals: training arithmetic, scoring and the model file format. The engine is seen only through its handles; a model's score on an image is the parameter `score` of `Predict`.
- Image decoding, reshaping, the division by 255, and ND4J's `putRow`, `reshape`, `dup` storage and `close`. A row records its user and file instead of pixels, and the cached matrix is kept as rows, not flattened.
- The training threads. `start` and `join` are modelled as running the per-user trainings one after the other. When the users are distinct and their names unique, the tasks touch disjoint models and files and only read the shared arrays. The `catch` around `join` catches only an interrupted `join`: an exception thrown inside a task (by `trainModel` or `saveModel`, say) ends that thread alone, so that user's model stays untrained and its file unwritten while `train()` still returns normally. The sequential model, where every task completes, does not capture this.
- Console output, `getAbsolutePath`, and the empty `invalidate`.
- `listFiles()` and `File.exists()` are inputs. A user's listing is read once, and `exists` is membership in the set of files on disk.
- The user list and every directory listing are fixed when the network is built. The source keeps the caller's list by reference and lists the directories again on each `train()`, so a later `train()` after images or users were added is not captured: it counts a new `filesSize` but trains on the stale cached matrix and labels, and a user appended and admitted with `addUser` gets `indexOf` n, which no cached label equals, so all its labels are -1.
- The `(int)` cast saturates at the `int` bounds and maps NaN to 0; both are outside the model, since scores are exact reals.
- `predict` turns an exception raised inside its `try` block (the filter, the scoring calls and the reduction) into null, while an exception from decoding the input image, which comes before the `try`, propagates to the caller. Both are outside the model.
- Nd4j's `epsEquals` and `epsNotEquals` are modelled as exact comparisons. Every label is a whole number, so they decide the same way.
- Assumption: `User.equals` is object identity. The `User` class is not part of this model; `indexOf`, the distinctness of users and the reset of each model all rest on this.
- `asMatrix` failing on an entry that is not a readable image (a subdirectory or a corrupt file) is not modelled. In the source that exception aborts `train()` midway: the earlier users' models are already deleted and recreated untrained, `labels` is already reallocated, and `normalizedInputs` is still null.
- LinearNetwork.LinearNeuralNetwork.FirstAssembly: caches the matrix before the assembly loop, where the source assigns `normalizedInputs` after it. The two differ only when assembly aborts, which is left out above.
- Handles are never reused in the model: `CreateModel` and `LoadModel` issue a handle that was never issued before, so a handle stands for one model object. The native library may hand out the pointer of a deleted model again; that is not modelled, and `ModelsReplaced`'s disjointness of old and new handles is a fact about model objects, not pointer values.
- Files are identified by their path strings. `File` path resolution and case-insensitive file systems, which can make two different paths one file, are not modelled; `ModelPathInjective` is about paths, not files.
- `split` works on bytes: `strtok` compares `char` values. Characters of the model stand for bytes, so only single-byte text is modelled, and a multi-byte delimiter character is not.
- `int` overflow of `filesSize`, `index` and the list positions is not modelled.
- `vectorToString`: the `ostream` formatting of one double is the abstract function parameter `format`.
- `split`: a string holding NUL is cut at it by `c_str()`, which the model does not capture. The `strdup`/`delete[]` mismatch is not modelled either.
- `ActivationFunction.h` is an interface without behaviour and is not part of this model.
- LinearNetwork.LinearNeuralNetwork.Train: requires every user to hold a live model of its own, which the constructor and `AddUser` establish. The list cannot grow in the model (see the line on the fixed user list above), so no appended user is covered, although the source's null check before `deleteModel` is kept in `ResetModel`.
- LinearNetwork.LinearNeuralNetwork.TrainAll: the saved-from fact is stated only for users with a unique name. Two users with the same name share one file, and the later task's model is the one on disk.
