/** Which requests the scheduler accepts, and which error the others are refused with. */
module Validation {
  import opened Wrappers
  import opened Model
  import opened Scheduler

  // ---- Schedules ----

  /** The time whose age the validator limits. */
  function Reference(schedule: Schedule): Time {
    if schedule.Cron? then schedule.firstTransmissionAfter
    else
      FirstOccurrence(schedule);
      schedule.FirstDue().value
  }

  /** The schedule without its planned number of occurrences. */
  function Unlimited(schedule: Schedule): Schedule {
    if schedule.Delayed? then schedule else schedule.(iterate := Infinitely)
  }

  lemma {:induction false} IntervalSpacing(schedule: Schedule, gap: nat)
    requires schedule.Interval?
    ensures Spaced(Unlimited(schedule), gap) <==> gap <= schedule.interval
  {
    var unlimited := Unlimited(schedule);
    if gap <= schedule.interval {
      IntervalIsSpaced(unlimited, gap);
    } else {
      assert unlimited.interval * 0 == 0 && unlimited.interval * 1 == unlimited.interval;
      assert unlimited.Next(0).value + gap > unlimited.Next(1).value;
    }
  }

  /**
   A schedule is accepted exactly when it starts no more than a second (10^9 ns) before
   now and, for an interval, the due times it would have without a planned number are at
   least one clock cycle apart. An old one is refused as aged, whatever its spacing.
   */
  lemma {:induction false} AcceptedExactlyWhen(now: Time, schedule: Schedule, clockCycleInterval: nat)
    ensures var r := ValidateSchedule(now, schedule, clockCycleInterval);
            var recent := now <= Reference(schedule) + 1_000_000_000;
            var spaced := schedule.Interval? ==> Spaced(Unlimited(schedule), clockCycleInterval);
            && (r.Ok? <==> recent && spaced)
            && (r == Err(AgedSchedule) <==> !recent)
            && (r == Err(TooShortInterval) <==> recent && !spaced)
  {
    FirstOccurrence(schedule);
    if schedule.Interval? {
      IntervalSpacing(schedule, clockCycleInterval);
    }
  }

  // ---- Subjects ----

  lemma {:induction false} ByteLengthAdds(a: string, b: string)
    ensures ByteLength(a + b) == ByteLength(a) + ByteLength(b)
  {
    if a == "" {
      assert a + b == b;
    } else {
      assert (a + b)[0] == a[0] && (a + b)[1..] == a[1..] + b;
      ByteLengthAdds(a[1..], b);
    }
  }

  /** With ByteLengthAdds, this determines the length of every string. */
  lemma {:induction false} ByteLengthOfOne(c: char)
    ensures ByteLength([c]) == if c <= '\U{7F}' then 1 else if c <= '\U{7FF}' then 2 else if c <= '\U{FFFF}' then 3 else 4
  {
    assert [c][1..] == "";
  }

  lemma {:induction false} AsciiLength(s: string)
    requires forall i :: 0 <= i < |s| ==> s[i] <= '\U{7F}'
    ensures ByteLength(s) == |s|
  {
    if s != "" {
      AsciiLength(s[1..]);
    }
  }

  predicate Forbidden(c: char) {
    c == '\U{0}' || c == '\U{20}' || c == '\U{3E}' || c == '\U{2A}'
  }

  /**
   A subject is refused exactly when it starts with a dollar sign, holds NUL, space, `>`
   or `*` anywhere, or takes more than 256 bytes, counted as a 32-bit number.
   */
  lemma {:induction false} SubjectRefusedExactlyWhen(message: Message)
    ensures var subject := message.subject;
            ValidateMessage(message) == Err(NatsInvalidSubject)
            <==> || "$" <= subject
                 || (exists i :: 0 <= i < |subject| && Forbidden(subject[i]))
                 || ByteLength(subject) % 0x1_0000_0000 > 256
    ensures ValidateMessage(message).Err? ==> ValidateMessage(message) == Err(NatsInvalidSubject)
  {
    var subject := message.subject;
    assert forall c :: c in subject <==> exists i :: 0 <= i < |subject| && subject[i] == c;
  }

  /** The usual case: an ASCII subject of less than 2^32 characters. */
  lemma {:induction false} AsciiSubjectAcceptedExactlyWhen(message: Message)
    requires |message.subject| < 0x1_0000_0000
    requires forall i :: 0 <= i < |message.subject| ==> message.subject[i] <= '\U{7F}'
    ensures ValidateMessage(message).Ok?
            <==> && |message.subject| <= 256 && !("$" <= message.subject)
                 && forall i :: 0 <= i < |message.subject| ==> !Forbidden(message.subject[i])
  {
    AsciiLength(message.subject);
    SubjectRefusedExactlyWhen(message);
  }
}
