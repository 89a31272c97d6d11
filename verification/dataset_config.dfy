/**
 * Construction of the training driver: validation of the four dataset path
 * lists and of the batch size, and the step arithmetic that fixes how many
 * optimisation steps the run takes.
 *
 * `ConfigureAsWritten` follows the constructor exactly, including what it
 * does with a batch size below one; `Configure` is the corrected
 * construction that the rest of the model uses.
 */
module DatasetConfig {
  import opened Results
  import FileTypes

  /** Python's `a // b`: division rounding toward negative infinity. */
  function FloorDiv(a: int, b: int): (q: int)
    requires b != 0
    ensures b > 0 ==> q * b <= a < q * b + b
    ensures b < 0 ==> q * b + b < a <= q * b
    ensures 0 < b <= a ==> 1 <= q
    ensures b < 0 < a ==> q <= -1
  {
    if b > 0 then a / b else (-a) / (-b)
  }

  datatype ConfigError =
    | NoTrainingData                                   // an empty training list
    | TrainingCountMismatch                            // input and ground-truth training lists differ in length
    | TestCountMismatch                                // both test lists non-empty, of different lengths
    | BatchLargerThanDataset(batchSize: int, trainCount: nat)
    | ZeroBatchSize                                    // `len // 0` raises ZeroDivisionError
    | NonPositiveBatchSize(batchSize: int)             // corrected construction only

  /** What the constructor leaves behind for `train()`. */
  datatype Config = Config(
    trainCount: nat,
    hasTestData: bool,
    batchSize: int,
    epoch: int,
    batchPerEpoch: int,
    maxSteps: int,
    fileExtension: string)

  /** Both training lists are non-empty and pair up one to one. */
  predicate TrainListsOk(trainIn: seq<string>, trainGt: seq<string>)
  {
    0 < |trainIn| == |trainGt|
  }

  /** Both test lists are non-empty and of different lengths. */
  predicate TestListsMismatch(testIn: seq<string>, testGt: seq<string>)
  {
    0 < |testIn| && 0 < |testGt| && |testIn| != |testGt|
  }

  /** How the test lists decide test evaluation: disabled, enabled, or an error. */
  function TestData(testIn: seq<string>, testGt: seq<string>): (r: Result<bool, ConfigError>)
    ensures r == Ok(false) <==> |testIn| == 0 || |testGt| == 0
    ensures r == Ok(true) <==> |testIn| > 0 && |testGt| > 0 && |testIn| == |testGt|
    ensures r.Err? ==> r.error == TestCountMismatch
  {
    if |testIn| == 0 || |testGt| == 0 then Ok(false)
    else if |testIn| != |testGt| then Err(TestCountMismatch)
    else Ok(true)
  }

  /** The constructor as written: checks in source order, then `epoch * (n // batch_size)`. */
  function ConfigureAsWritten(trainIn: seq<string>, trainGt: seq<string>,
                              testIn: seq<string>, testGt: seq<string>,
                              batchSize: int, epoch: int): (r: Result<Config, ConfigError>)
    // the errors, in the order the constructor raises them
    ensures (|trainIn| == 0 || |trainGt| == 0) ==> r == Err(NoTrainingData)
    ensures 0 < |trainIn| && 0 < |trainGt| && |trainIn| != |trainGt| ==> r == Err(TrainingCountMismatch)
    ensures TrainListsOk(trainIn, trainGt) && TestListsMismatch(testIn, testGt) ==> r == Err(TestCountMismatch)
    ensures TrainListsOk(trainIn, trainGt) && !TestListsMismatch(testIn, testGt) && |trainIn| < batchSize ==>
      r == Err(BatchLargerThanDataset(batchSize, |trainIn|))
    ensures TrainListsOk(trainIn, trainGt) && !TestListsMismatch(testIn, testGt) && batchSize == 0 ==>
      r == Err(ZeroBatchSize)
    ensures r.Ok? <==>
      && TrainListsOk(trainIn, trainGt)
      && !TestListsMismatch(testIn, testGt)
      && batchSize <= |trainIn|
      && batchSize != 0
    ensures r.Ok? ==>
      && r.value.trainCount == |trainIn|
      && r.value.hasTestData == (|testIn| > 0 && |testGt| > 0)
      && r.value.batchSize == batchSize
      && r.value.epoch == epoch
      && r.value.maxSteps == epoch * r.value.batchPerEpoch
      && r.value.fileExtension == FileTypes.FileExtension(trainIn[0])
    ensures r.Ok? && batchSize > 0 ==>
      r.value.batchPerEpoch * batchSize <= |trainIn| < r.value.batchPerEpoch * batchSize + batchSize
    // a negative batch size passes the guard and yields a negative number of batches per epoch
    ensures r.Ok? && batchSize < 0 ==>
      && r.value.batchPerEpoch * batchSize + batchSize < |trainIn| <= r.value.batchPerEpoch * batchSize
      && r.value.batchPerEpoch <= -1
  {
    if |trainIn| == 0 || |trainGt| == 0 then Err(NoTrainingData)
    else if |trainIn| != |trainGt| then Err(TrainingCountMismatch)
    else
      var ext := FileTypes.FileExtension(trainIn[0]);
      match TestData(testIn, testGt)
      case Err(e) => Err(e)
      case Ok(hasTest) =>
        if |trainIn| < batchSize then Err(BatchLargerThanDataset(batchSize, |trainIn|))
        else if batchSize == 0 then Err(ZeroBatchSize)
        else
          var perEpoch := FloorDiv(|trainIn|, batchSize);
          Ok(Config(|trainIn|, hasTest, batchSize, epoch, perEpoch, epoch * perEpoch, ext))
  }

  /**
   * The corrected constructor: a batch size below one is refused with an
   * error of its own instead of reaching the division.
   */
  function Configure(trainIn: seq<string>, trainGt: seq<string>,
                     testIn: seq<string>, testGt: seq<string>,
                     batchSize: int, epoch: int): (r: Result<Config, ConfigError>)
    // the errors, in the order the constructor raises them
    ensures (|trainIn| == 0 || |trainGt| == 0) ==> r == Err(NoTrainingData)
    ensures 0 < |trainIn| && 0 < |trainGt| && |trainIn| != |trainGt| ==> r == Err(TrainingCountMismatch)
    ensures TrainListsOk(trainIn, trainGt) && TestListsMismatch(testIn, testGt) ==> r == Err(TestCountMismatch)
    ensures TrainListsOk(trainIn, trainGt) && !TestListsMismatch(testIn, testGt) && |trainIn| < batchSize ==>
      r == Err(BatchLargerThanDataset(batchSize, |trainIn|))
    ensures TrainListsOk(trainIn, trainGt) && !TestListsMismatch(testIn, testGt) && batchSize < 1 ==>
      r == Err(NonPositiveBatchSize(batchSize))
    ensures r.Ok? <==>
      && TrainListsOk(trainIn, trainGt)
      && !TestListsMismatch(testIn, testGt)
      && 1 <= batchSize <= |trainIn|
    ensures r.Ok? ==>
      && r.value.trainCount == |trainIn|
      && r.value.hasTestData == (|testIn| > 0 && |testGt| > 0)
      && r.value.batchSize == batchSize
      && r.value.epoch == epoch
      && 1 <= r.value.batchPerEpoch
      && r.value.batchPerEpoch * batchSize <= |trainIn| < r.value.batchPerEpoch * batchSize + batchSize
      && r.value.maxSteps == epoch * r.value.batchPerEpoch
      && (epoch >= 0 ==> r.value.maxSteps >= epoch)
      && r.value.fileExtension == FileTypes.FileExtension(trainIn[0])
  {
    if |trainIn| == 0 || |trainGt| == 0 then Err(NoTrainingData)
    else if |trainIn| != |trainGt| then Err(TrainingCountMismatch)
    else
      var ext := FileTypes.FileExtension(trainIn[0]);
      match TestData(testIn, testGt)
      case Err(e) => Err(e)
      case Ok(hasTest) =>
        if |trainIn| < batchSize then Err(BatchLargerThanDataset(batchSize, |trainIn|))
        else if batchSize < 1 then Err(NonPositiveBatchSize(batchSize))
        else
          var perEpoch := FloorDiv(|trainIn|, batchSize);
          assert epoch >= 0 ==> epoch * perEpoch >= epoch by {
            if epoch >= 0 { MulMonotone(epoch, perEpoch); }
          }
          Ok(Config(|trainIn|, hasTest, batchSize, epoch, perEpoch, epoch * perEpoch, ext))
  }

  lemma MulMonotone(a: nat, b: int)
    requires b >= 1
    ensures a * b >= a
  {
  }

  /** For every batch size of at least one the corrected constructor agrees with the original. */
  lemma ConfigureAgreesOnPositiveBatch(trainIn: seq<string>, trainGt: seq<string>,
                                       testIn: seq<string>, testGt: seq<string>,
                                       batchSize: int, epoch: int)
    requires batchSize >= 1
    ensures Configure(trainIn, trainGt, testIn, testGt, batchSize, epoch)
         == ConfigureAsWritten(trainIn, trainGt, testIn, testGt, batchSize, epoch)
  {
  }

  /**
   * The batch-size guard of the original lets a negative batch size through:
   * one training pair with batch size -1 yields a negative number of batches
   * per epoch and a negative step count, where an error was evidently meant.
   */
  lemma NegativeBatchSizeAccepted()
    ensures var r := ConfigureAsWritten(["a.png"], ["a.png"], [], [], -1, 10);
      && r.Ok?
      && r.value.batchPerEpoch == -1
      && r.value.maxSteps == -10
    ensures Configure(["a.png"], ["a.png"], [], [], -1, 10) == Err(NonPositiveBatchSize(-1))
  {
    assert FloorDiv(1, -1) == -1;
  }

  /**
   * The original guard accepts a batch size equal to the dataset size, with
   * exactly one batch per epoch, although its message asks for a smaller one.
   */
  lemma BatchEqualToDatasetAccepted(trainIn: seq<string>, trainGt: seq<string>, epoch: int)
    requires 0 < |trainIn| == |trainGt|
    ensures var r := ConfigureAsWritten(trainIn, trainGt, [], [], |trainIn|, epoch);
      r.Ok? && r.value.batchPerEpoch == 1 && r.value.maxSteps == epoch && !r.value.hasTestData
  {
  }
}
