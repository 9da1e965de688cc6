/** Safety over whole runs of calls, with arbitrary failures outside the program at every call. */
module Runs {
  import opened Names
  import opened Forest
  import opened BlockGraph
  import opened Store
  import opened Preservation
  import opened Books
  import opened Layers

  datatype Event = Event(call: Call, faults: Faults)

  ghost function After(s: State, e: Event): State {
    Step(s, e.call, e.faults).state
  }

  ghost function Run(s: State, es: seq<Event>): State
    decreases |es|
  {
    if es == [] then s else Run(After(s, es[0]), es[1..])
  }

  predicate WellFormedCall(c: Call) {
    c.NewVolume? || c.NewSnapshot? ==> WellFormedId(c.id)
  }

  /** Each call of the run has a well-formed ID and is used properly where it is made. */
  ghost predicate ProperCalls(s: State, es: seq<Event>)
    decreases |es|
  {
    es == [] ||
    (WellFormedCall(es[0].call) && Proper(s, es[0].call) && ProperCalls(After(s, es[0]), es[1..]))
  }

  /** No call of the run reports a file it could not remove. */
  ghost predicate FilesRemoved(s: State, es: seq<Event>)
    decreases |es|
  {
    es == [] ||
    (Step(s, es[0].call, es[0].faults).reply != Failed(FileNotRemoved) && FilesRemoved(After(s, es[0]), es[1..]))
  }

  /** No call of the run deletes a snapshot its source volume still writes to. */
  ghost predicate NoActiveRelease(s: State, es: seq<Event>)
    decreases |es|
  {
    es == [] || (!ReleasesActiveLayer(s, es[0].call) && NoActiveRelease(After(s, es[0]), es[1..]))
  }

  /** No new image takes the ID of a recorded one. */
  ghost predicate NewIds(s: State, es: seq<Event>)
    decreases |es|
  {
    es == [] || (NewId(s, es[0].call) && NewIds(After(s, es[0]), es[1..]))
  }

  /** At no call of the run are there more than 2^31-1 images; the run may be of any length. */
  ghost predicate StaysSmall(s: State, es: seq<Event>)
    decreases |es|
  {
    es == [] || (|s.images| <= MAX_INT32 && StaysSmall(After(s, es[0]), es[1..]))
  }

  /** Below 2^31 images every well-formed call is admissible: no counter can overflow. */
  lemma WellFormedIsAdmissible(s: State, c: Call)
    requires ExactBooks(s) && |s.images| <= MAX_INT32 && WellFormedCall(c)
    ensures Admissible(s, c)
  {
    forall x
      ensures HasRoom(s.images, x)
    {
      SmallStoreHasRoom(s.images, x);
    }
  }

  /**
    In every run of proper calls, whatever is refused on the way, the store stays consistent and
    its layers sound as long as every deleted node's file can be removed.
   */
  lemma {:induction false} RunKeepsSound(s: State, es: seq<Event>)
    requires SoundLayers(s) && StaysSmall(s, es)
    requires ProperCalls(s, es) && FilesRemoved(s, es)
    ensures SoundLayers(Run(s, es))
    decreases |es|
  {
    if es != [] {
      WellFormedIsAdmissible(s, es[0].call);
      StepKeepsLayers(s, es[0].call, es[0].faults);
      RunKeepsSound(After(s, es[0]), es[1..]);
    }
  }

  /** If no active snapshot is deleted, every volume keeps a recorded, named layer to write to. */
  lemma {:induction false} RunKeepsSafe(s: State, es: seq<Event>)
    requires SoundLayers(s) && SafeLayers(s) && StaysSmall(s, es)
    requires ProperCalls(s, es) && FilesRemoved(s, es) && NoActiveRelease(s, es)
    ensures SoundLayers(Run(s, es)) && SafeLayers(Run(s, es))
    decreases |es|
  {
    if es != [] {
      WellFormedIsAdmissible(s, es[0].call);
      StepKeepsLayers(s, es[0].call, es[0].faults);
      StepKeepsSafe(s, es[0].call, es[0].faults);
      RunKeepsSafe(After(s, es[0]), es[1..]);
    }
  }

  /** Counts and depths stay exact in every run with new IDs, even when files cannot be removed. */
  lemma {:induction false} RunKeepsBooks(s: State, es: seq<Event>)
    requires ExactBooks(s) && StaysSmall(s, es)
    requires NewIds(s, es) && forall e | e in es :: WellFormedCall(e.call)
    ensures ExactBooks(Run(s, es))
    decreases |es|
  {
    if es != [] {
      WellFormedIsAdmissible(s, es[0].call);
      StepKeepsBooks(s, es[0].call, es[0].faults);
      RunKeepsBooks(After(s, es[0]), es[1..]);
    }
  }

  lemma EmptyStoreIsSound()
    ensures SoundLayers(EMPTY) && SafeLayers(EMPTY)
  {
  }
}
