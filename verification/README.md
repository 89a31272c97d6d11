# Training-driver control logic of the nuke-ML-server training template

This project models the integer and string control logic of the training
template's driver, `Models/trainingTemplateTF/train_model.py`. The driver
trains an encoder-decoder from paired input/ground-truth images. Everything
numeric is done by TensorFlow. What is left, and what is modelled here, is:

- **construction** (`TrainModel.__init__`). It validates the four dataset
  path lists and the batch size. It then computes batches per epoch and
  `max_steps = epoch * (n // batch_size)` with Python floor division, and
  takes the file extension of the first training input as
  `os.path.splitext(path)[1][1:]` (POSIX rules). See `DatasetConfig` in
  `dataset_config.dfy` and `FileTypes` in `extension.dfy`.
- **extension dispatch** in `get_data.read_and_preprocess_data`. An exact-string
  allow-list selects one of three outcomes: the 8-bit decoder whose values are
  divided by 255, the OpenEXR reader whose values are used unchanged, or a
  `TypeError`. See `FileTypes`.
- **the step loop** of `train()`. It runs from the restored global step to
  `max_steps - 1`. Each step does the following, in order:
  1. runs one optimisation step, which advances the global counter;
  2. writes summaries when `step % 100 == 0` or on the final step;
  3. aborts if the loss is NaN;
  4. logs when `step % 10 == 0` or on the final step;
  5. checkpoints when `step % 1000 == 0` or on the final step, and then runs
     the test pass if there is test data.

  The loss is an oracle `lossIsNaN(step)`. The result is a trace of actions
  plus an outcome, `Completed` or `Diverged(step)`. `Schedule` is a recursive
  reference definition, and `Train` is the loop, which keeps the loop variable
  and the global counter apart as the driver does. See `StepSchedule` in
  `step_schedule.dfy`.
- **the resume decision** in `load()`. With no checkpoints, the run starts
  fresh without asking. Otherwise the operator is asked again until the
  answer is exactly `"start"` or a listed checkpoint name. The operator's
  answers are the whole standard input, one answer per line. Reading past its
  end makes `raw_input` (line 244) raise `EOFError`, which aborts the run. See
  `ResumePrompt` in `resume_prompt.dfy`.
- **the order of a run**: construction, then decoder selection (while the
  input pipeline is built), then the prompt, then the loop. See `TrainingRun`
  in `training_run.dfy`.

`Results` (`results.dfy`) holds the `Result` type that carries the driver's
exceptions as values.

Points of the code's behaviour worth stating directly:

- The allow-list at lines 88 and 95 compares exact strings: `jpg` and `JPG`
  are accepted, `Jpg` raises `TypeError`.
- An unsupported extension raises `TypeError` when the input pipeline is
  built in `train()`. That is after construction has succeeded, not during
  it.
- Construction errors are `ValueError`s. A batch size of zero raises
  `ZeroDivisionError` from `len // 0` instead.
- A checkpoint written at loop step `s` is tagged `s`. It holds global step
  `s + 1`, because the optimisation step has already advanced the counter. So
  a run resumed from it continues at `s + 1`.

## Model

| member | source | states |
|---|---|---|
| `FileTypes.SplitExt` | Models/trainingTemplateTF/train_model.py:55 | POSIX `os.path.splitext`: root and extension concatenate back to the path; a non-empty extension starts with its dot, holds no further dot or slash, and is split off only when the root's file name has a non-dot character, so `.png` keeps its whole name as root |
| `FileTypes.FileExtension` | Models/trainingTemplateTF/train_model.py:55 | `splitext(path)[1][1:]` contains no dot or slash; when non-empty it is the suffix of the path right after a dot that is preceded, within the file name, by a non-dot character (so `/x/.png` gives the empty extension) |
| `FileTypes.FileExtensionOfJoin` | Models/trainingTemplateTF/train_model.py:55 | for any stem whose file name has a non-dot character and any dot- and slash-free extension, the extension of `stem + "." + ext` is `ext` (inverse of joining) |
| `FileTypes.SelectDecoder` | Models/trainingTemplateTF/train_model.py:88-103 | the 8-bit decoder is chosen iff the extension is one of the eight listed standard spellings, the EXR reader iff it is `exr` or `EXR`, and a `TypeError` naming the extension otherwise |
| `FileTypes.AcceptedExtensionsAreSingleCase` | Models/trainingTemplateTF/train_model.py:88-103 | every accepted extension is all lower case or all upper case and its upper-case form selects the same decoder; `Jpg` is refused although `JPG` is accepted |
| `FileTypes.Normalise` | Models/trainingTemplateTF/train_model.py:88-100 | only the standard branch rescales: each value times 255 gives the decoded sample back; the EXR branch leaves values unchanged |
| `FileTypes.StandardNormalisationInUnitRange` | Models/trainingTemplateTF/train_model.py:93-94 | 8-bit samples in [0, 255] normalise into [0, 1] |
| `DatasetConfig.FloorDiv` | Models/trainingTemplateTF/train_model.py:80 | Python's `//`: the quotient rounds toward negative infinity for either sign of the divisor |
| `DatasetConfig.TestData` | Models/trainingTemplateTF/train_model.py:57-69 | either test list empty disables testing without error; both non-empty and of different lengths is an error; otherwise testing is enabled |
| `DatasetConfig.ConfigureAsWritten` | Models/trainingTemplateTF/train_model.py:46-83 | construction exactly as written: the errors in source order (an empty training list, unequal training lists, a mismatched non-empty test pair, `n < batch_size`, and `ZeroDivisionError` for batch size 0); construction succeeds iff the training lists are non-empty and of equal length, the test lists are not a mismatched non-empty pair, `batch_size <= n` and `batch_size != 0`; on success `max_steps = epoch * batchPerEpoch` with the trailing partial batch dropped, and the extension is that of the first training input; a negative batch size gives floor-division bounds and at most -1 batches per epoch |
| `DatasetConfig.Configure` | Models/trainingTemplateTF/train_model.py:46-83 | corrected construction: the same errors in the same order, except that a batch size below one is refused with its own error instead of reaching the division; succeeds iff additionally `1 <= batch_size`; then at least one batch per epoch, `batchPerEpoch * batch_size <= n < (batchPerEpoch + 1) * batch_size`, and `max_steps = epoch * batchPerEpoch >= epoch` for a non-negative epoch |
| `DatasetConfig.ConfigureAgreesOnPositiveBatch` | Models/trainingTemplateTF/train_model.py:75-81 | for every batch size of at least one the corrected construction equals the original |
| `DatasetConfig.NegativeBatchSizeAccepted` | Models/trainingTemplateTF/train_model.py:75-81 | the original guard accepts batch size -1 with one training pair, giving -1 batches per epoch and -10 steps for 10 epochs; the corrected one refuses it |
| `DatasetConfig.BatchEqualToDatasetAccepted` | Models/trainingTemplateTF/train_model.py:75-80 | the constructor as written accepts a batch size equal to the number of pairs (despite "must be smaller"), with one batch per epoch and `max_steps == epoch` |
| `StepSchedule.Schedule` | Models/trainingTemplateTF/train_model.py:197-222 | the reference trace of the loop from the restored counter: empty iff no step is left, otherwise at least one and at most five actions per step; `ScheduleActions` states which actions occur, `ScheduleOrdered` that each occurs once and in the loop's order, `ScheduleCounters` the counters they carry |
| `StepSchedule.Halt` | Models/trainingTemplateTF/train_model.py:197-206 | the loop completes iff no step in `[start, max_steps)` has a NaN loss; otherwise it diverges at the first such step |
| `StepSchedule.Train` | Models/trainingTemplateTF/train_model.py:197-222 | the loop with its separate global counter produces the reference trace and outcome; the counter ends at `max_steps` (or the restored value if nothing ran) on completion and one past the diverging step otherwise |
| `StepSchedule.ScheduleActions` | Models/trainingTemplateTF/train_model.py:197-222 | every reached step is trained; summaries iff the step is a multiple of 100 or the last; logging iff the loss is not NaN and the step is a multiple of 10 or the last; checkpoint iff the loss is not NaN and the step is a multiple of 1000 or the last; test iff it checkpoints and test data exists; nothing else occurs |
| `StepSchedule.ScheduleSteps` | Models/trainingTemplateTF/train_model.py:197 | every action belongs to a step between the restored counter and `max_steps - 1` |
| `StepSchedule.ScheduleCounters` | Models/trainingTemplateTF/train_model.py:197-217 | every action in the trace is one of the five per-step actions of its own step, with training and checkpoint actions carrying counter step + 1 |
| `StepSchedule.ScheduleOrdered` | Models/trainingTemplateTF/train_model.py:197-222 | every action strictly precedes each later one: an earlier step, or the same step and an earlier place in the order train, summary, log, checkpoint, test; so no action repeats, steps never decrease and training steps strictly increase |
| `StepSchedule.FinalStepActs` | Models/trainingTemplateTF/train_model.py:200-222 | in a completed non-empty run the final step writes summaries, logs and checkpoints, and tests iff test data exists |
| `StepSchedule.DivergenceKeepsEarlierCheckpoints` | Models/trainingTemplateTF/train_model.py:199-217 | the diverging step is trained and summarised if due, but not logged, checkpointed or tested; no action follows it; every earlier checkpoint step was saved |
| `StepSchedule.HaltAfterPrefix` | Models/trainingTemplateTF/train_model.py:197-206 | a run that passes `[start, resume)` without NaN ends the way the run started at `resume` ends |
| `StepSchedule.ResumeSuffix` | Models/trainingTemplateTF/train_model.py:197-222 | a run that passes `[start, resume)` without NaN ends with exactly the trace of the run started at `resume` |
| `StepSchedule.ResumeFromCheckpoint` | Models/trainingTemplateTF/train_model.py:183-217 | for the same per-step NaN pattern, restarting from the counter saved with the checkpoint of step `s` replays exactly the rest of the uninterrupted trace and reaches the same outcome |
| `StepSchedule.DivergenceAtStep5000` | Models/trainingTemplateTF/train_model.py:206-217 | a 10000-step run whose loss first becomes NaN at step 5000 diverges there, with the step-4000 checkpoint saved and none at step 5000 |
| `ResumePrompt.Interpret` | Models/trainingTemplateTF/train_model.py:250-259 | an accepted answer means a fresh start iff it is `"start"`, otherwise a restore of that listed name; the `ValueError` branch is unreachable |
| `ResumePrompt.Prompt` | Models/trainingTemplateTF/train_model.py:243-249 | the input ends with `EOFError` iff no answer is accepted; otherwise it decides on the first accepted answer, having re-prompted on every earlier one |
| `ResumePrompt.Load` | Models/trainingTemplateTF/train_model.py:233-259 | no checkpoints: fresh start with no answer read; otherwise the first answer equal to `"start"` or a listed name decides, `"start"` meaning fresh even if a checkpoint bears that name, and a restored name is listed; the input ends with `EOFError` iff checkpoints exist and no answer is accepted |
| `ResumePrompt.Restored` | Models/trainingTemplateTF/train_model.py:250-257 | once `load()` has decided, it returns true iff checkpoints exist and the accepted answer is not `"start"`, and a true result means that answer names a listed checkpoint |
| `ResumePrompt.LaterAnswersIgnored` | Models/trainingTemplateTF/train_model.py:243-246 | once decided, appending further answers changes nothing |
| `ResumePrompt.RejectedAnswerReprompts` | Models/trainingTemplateTF/train_model.py:245-249 | a rejected answer leads to the outcome of the remaining answers, one answer later |
| `ResumePrompt.StartWins` | Models/trainingTemplateTF/train_model.py:245-251 | answering `"start"` first starts fresh even when a checkpoint is named `"start"` |
| `TrainingRun.RunTraining` | Models/trainingTemplateTF/train_model.py:151-197 | a construction error or an unsupported extension stops the run before the prompt; after both pass, the run ends with `EOFError` iff the prompt finds no accepted answer and finishes iff it decides; a finished run carries the constructed configuration and the decoder its extension selects, starts at 0 when fresh or at the restored checkpoint's counter, follows the step schedule and outcome for the configured `max_steps`, and its counter ends at `max_steps` (or its start) on completion and one past the diverging step otherwise |

## Left out

- The TensorFlow graph, session, Adam optimiser and polynomial learning-rate decay (lines 152-179): library calls and floating-point numerics.
- The multi-scale loss and `resize_images` (lines 125-137): tensor arithmetic. The loss appears only as the per-step oracle `lossIsNaN`.
- The `tf.data` shuffle / repeat / batch / prefetch pipeline, parallel decoding, CPU placement and the joint random crop (lines 105-123): library behaviour and concurrency.
- Saver retention (`max_to_keep=100`, one kept per hour) and the mechanics of save and restore (lines 180, 228-231, 255): library-internal. Restoring is reduced to `savedCounter(name)`, the counter a checkpoint holds.
- Directory listing (`get_filepaths_from_dir`, `get_ckpt_list`), `read_exr`, printing, summary writers and timing: I/O and helpers outside this file. Their results become parameters: the path lists, the checkpoint names and the operator's answers.
- `test()` (lines 139-149) is not modelled. It adds the same tensor `batch_per_epoch` times, so it does not average over batches. It divides by zero when the test set is smaller than the batch size.
- The learning rate's continuity across a resume: it depends on the library's decay function.
- `len(x) is 0` (lines 51, 63) is modelled as a length test. It compares identity, which CPython's small-integer cache makes agree with `== 0`.
- `TrainingRun.RunTraining`: runs the corrected construction `DatasetConfig.Configure`, so a batch size below one is refused before the prompt. The program instead prompts and then runs an empty loop for a negative batch size, and raises `ZeroDivisionError` for 0.
- `TrainingRun.RunTraining`: assumes `test()` builds and every test pass returns. The program raises `ZeroDivisionError` at line 149, after the prompt and before the loop, when `0 < len(test) < batch_size`. Each test pass also draws one batch from a one-epoch iterator. `get_data` ignores its list arguments (lines 111-112), so that iterator runs over the training lists. A long run therefore hits `OutOfRangeError` at a later checkpoint.
- `StepSchedule.Train`: the counter is an unbounded integer, while `global_step` is a `tf.int32` variable (line 156). Its end values and the `s + 1` stored with a checkpoint hold only while the step count stays below 2^31 - 1.
- `StepSchedule.Halt`: the NaN guard is an `assert` (line 206). It raises `AssertionError`, and Python run with `-O` removes it. The model assumes the guard is active.
- `StepSchedule.ResumeFromCheckpoint`: holds for the same per-step NaN pattern only. On restart the program rebuilds and reshuffles the pipeline (lines 115, 164) and redraws the crops, so the resumed run's losses need not match the uninterrupted run's.
- `FileTypes.Normalise`: uses exact reals, so float32 rounding of `x / 255.0` is not modelled.
- `FileTypes.SplitExt`: models POSIX `splitext` only (separator `/`, no alternative separator).
- `Plugins/Client/DLClient.h`: declarations of a UI plug-in, with no logic.

## Findings

| source | as written | input that shows it | evidently intended | confidence | as-written member | corrected member |
|---|---|---|---|---|---|---|
| Models/trainingTemplateTF/train_model.py:75-81 | the guard `len(in_data_list) < batch_size` is the only batch-size check, so a batch size below one passes it | `--bch -1` with one training pair and `--ep 10`: accepted, with -1 batches per epoch and `max_steps = -10`, so training silently does nothing; `--bch 0` reaches `len // 0` and raises `ZeroDivisionError` | a batch size below one is refused with a configuration error, and every accepted configuration has at least one batch per epoch | medium, not executed | `DatasetConfig.NegativeBatchSizeAccepted` (about `DatasetConfig.ConfigureAsWritten`) | `DatasetConfig.Configure` (used by `TrainingRun.RunTraining`) |
