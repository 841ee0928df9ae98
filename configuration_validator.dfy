/**
 * The validation rule of the plugin's configuration form: the retention
 * period, `LogExpiryDays`, must be greater than zero.
 */
module Validators {
  import opened Domain
  import Services

  /** The resource key of the message shown when the rule fails. */
  const MustBePositiveResource: string := "Plugins.Admin.ScheduleTaskLog.Configuration.LogExpiryDays.MustBePositive"

  /** The fields of the configuration form. */
  datatype ConfigurationModel = ConfigurationModel(disableLog: bool, logExpiryDays: int)

  /** A failed rule: the property it is about and the resource key of its message. */
  datatype ValidationFailure = ValidationFailure(propertyName: string, messageResource: string)

  /** The failures of validating `model`, one per broken rule. */
  function Validate(model: ConfigurationModel): (failures: seq<ValidationFailure>)
    ensures failures == [] <==> model.logExpiryDays > 0
    ensures forall f :: f in failures ==> f == ValidationFailure("LogExpiryDays", MustBePositiveResource)
    ensures |failures| <= 1
  {
    if model.logExpiryDays > 0 then [] else [ValidationFailure("LogExpiryDays", MustBePositiveResource)]
  }

  /** `DisableLog` has no rule: it never changes the outcome. */
  lemma DisableLogIsUnconstrained(model: ConfigurationModel, disableLog: bool)
    ensures Validate(model.(disableLog := disableLog)) == Validate(model)
  {
  }

  /** One, ten and a hundred days pass; zero and negative periods fail. */
  lemma RetentionExamples(disableLog: bool)
    ensures Validate(ConfigurationModel(disableLog, 1)) == []
    ensures Validate(ConfigurationModel(disableLog, 10)) == []
    ensures Validate(ConfigurationModel(disableLog, 100)) == []
    ensures Validate(ConfigurationModel(disableLog, 0)) == [ValidationFailure("LogExpiryDays", MustBePositiveResource)]
    ensures Validate(ConfigurationModel(disableLog, -1)) == [ValidationFailure("LogExpiryDays", MustBePositiveResource)]
    ensures Validate(ConfigurationModel(disableLog, -100)) == [ValidationFailure("LogExpiryDays", MustBePositiveResource)]
  {
  }

  /**
   * A retention period the form accepts puts the prune cutoff at least a day
   * in the past, so pruning never deletes an event of the last 24 hours.
   */
  lemma ValidRetentionKeepsTheLastDay(model: ConfigurationModel, now: Ticks, e: EventRecord)
    requires Validate(model) == []
    requires e.eventStartDateUtc >= now - TicksPerDay
    ensures Services.PruneCutoff(now, model.logExpiryDays) <= now - TicksPerDay
    ensures Services.Retained(e, Services.PruneCutoff(now, model.logExpiryDays))
  {
    assert (model.logExpiryDays - 1) * TicksPerDay >= 0;
  }
}
