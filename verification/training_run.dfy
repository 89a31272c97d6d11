/**
 * One run of the training driver, in the order the driver takes its steps:
 * construction (dataset and batch-size validation), decoder selection while
 * the input pipeline is built, the resume prompt, then the step loop.
 *
 * The checkpoint store is abstracted to `savedCounter(name)`, the global
 * step held by the named checkpoint, and the loss to `lossIsNaN(step)`.
 */
module TrainingRun {
  import opened Results
  import DatasetConfig
  import FileTypes
  import ResumePrompt
  import StepSchedule

  datatype StartupError =
    | Configuration(config: DatasetConfig.ConfigError)
    | UnsupportedExtension(decode: FileTypes.DecodeError)
    | EndOfInput  // `raw_input` raised `EOFError` before an accepted answer

  datatype RunReport =
    | Refused(error: StartupError)
    | Finished(config: DatasetConfig.Config, decoder: FileTypes.Decoder, resumed: bool,
               startStep: int, trace: seq<StepSchedule.Action>, outcome: StepSchedule.Outcome,
               globalStep: int)

  /** Construction, pipeline set-up, resume decision and training, stopping at the first failure. */
  method RunTraining(trainIn: seq<string>, trainGt: seq<string>,
                     testIn: seq<string>, testGt: seq<string>,
                     batchSize: int, epoch: int,
                     checkpoints: seq<string>, answers: seq<string>,
                     savedCounter: string -> int, lossIsNaN: int -> bool)
    returns (report: RunReport)
    ensures var cfg := DatasetConfig.Configure(trainIn, trainGt, testIn, testGt, batchSize, epoch);
      && (cfg.Err? ==> report == Refused(Configuration(cfg.error)))
      && (cfg.Ok? && FileTypes.SelectDecoder(cfg.value.fileExtension).Err? ==>
            report == Refused(UnsupportedExtension(FileTypes.UnhandledExtension(cfg.value.fileExtension))))
      && (cfg.Ok? && FileTypes.SelectDecoder(cfg.value.fileExtension).Ok? ==>
            && (report == Refused(EndOfInput) <==> ResumePrompt.Load(checkpoints, answers).InputExhausted?)
            && (report.Finished? <==> ResumePrompt.Load(checkpoints, answers).Decided?)
            && (report.Finished? ==>
                  && report.config == cfg.value
                  && FileTypes.SelectDecoder(report.config.fileExtension) == Ok(report.decoder)))
    ensures report.Finished? ==>
      var cfg := report.config;
      var decision := ResumePrompt.Load(checkpoints, answers);
      && decision.Decided?
      && report.resumed == decision.decision.Restore?
      && (report.resumed ==> decision.decision.name in checkpoints
                             && report.startStep == savedCounter(decision.decision.name))
      && (!report.resumed ==> report.startStep == 0)
      && 1 <= cfg.batchPerEpoch
      && report.trace == StepSchedule.Schedule(report.startStep, cfg.maxSteps, cfg.hasTestData, lossIsNaN)
      && report.outcome == StepSchedule.Halt(report.startStep, cfg.maxSteps, lossIsNaN)
      && (report.outcome == StepSchedule.Completed ==>
            report.globalStep == (if report.startStep < cfg.maxSteps then cfg.maxSteps else report.startStep))
      && (report.outcome.Diverged? ==> report.globalStep == report.outcome.step + 1)
  {
    var cfg := DatasetConfig.Configure(trainIn, trainGt, testIn, testGt, batchSize, epoch);
    if cfg.Err? {
      return Refused(Configuration(cfg.error));
    }
    var config := cfg.value;
    var decoder := FileTypes.SelectDecoder(config.fileExtension);
    if decoder.Err? {
      return Refused(UnsupportedExtension(decoder.error));
    }
    var decision := ResumePrompt.Load(checkpoints, answers);
    if decision.InputExhausted? {
      return Refused(EndOfInput);
    }
    var resumed := ResumePrompt.Restored(checkpoints, answers);
    var startStep := if resumed then savedCounter(decision.decision.name) else 0;
    var trace, outcome, globalStep := StepSchedule.Train(startStep, config.maxSteps, config.hasTestData, lossIsNaN);
    report := Finished(config, decoder.value, resumed, startStep, trace, outcome, globalStep);
  }
}
