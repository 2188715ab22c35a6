/** Events and subjects as the engine stores and returns them. The
    `zeitgeist.datamodel` module that defines them in the repository is not
    part of this model; the fields are the ones test/engine-test.py sets and
    reads. An empty string stands for a field that is not set. */
module Datamodel {
  import opened Wrappers

  datatype Subject = Subject(
    uri: string,
    currentUri: string,
    interpretation: string,
    manifestation: string,
    origin: string,
    mimetype: string,
    text: string,
    storage: string)

  /** `id` 0 means "no id yet"; `timestamp` is `None` when the caller left it
      empty; `payload` is an opaque byte string, empty when absent. */
  datatype Event = Event(
    id: nat,
    timestamp: Option<int>,
    interpretation: string,
    manifestation: string,
    actor: string,
    origin: string,
    payload: seq<bv8>,
    subjects: seq<Subject>)

  /** Interpretation of the events that record a subject moving from `uri`
      to `currentUri`. */
  const MoveEvent: string := "http://www.zeitgeist-project.com/ontologies/2010/01/27/zg#MoveEvent"

  /** A subject with no field set: what `Subject()` builds. */
  const BlankSubject: Subject := Subject("", "", "", "", "", "", "", "")

  /** An event with no field set: what `Event()` builds. */
  const BlankEvent: Event := Event(0, None, "", "", "", "", [], [])

  function TimeOf(e: Event): int
  {
    e.timestamp.GetOr(0)
  }

  predicate IsMove(e: Event)
  {
    e.interpretation == MoveEvent
  }

  /** The subject that subject-keyed result types group by. */
  function FirstSubject(e: Event): Subject
  {
    if e.subjects == [] then BlankSubject else e.subjects[0]
  }
}
