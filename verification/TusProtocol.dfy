/** Who queues the encrypt job, when PATCH handlers for the files of one transfer interleave
    at their await points (backend/app/tus/handler.py:69-100 and 121-136): a handler appends
    in one step, loads the file rows and looks at all sizes in a later step, and pushes in
    a third. Workers may shred the staging directory once some handler has pushed. */
module TusProtocol {
  import opened Bytes
  import opened Tus

  type FileId = nat
  type HandlerId = nat

  datatype Phase = Checking | Pushing | Finished

  /** `completer` is the first handler whose accepted append took the transfer from
      incomplete to complete. */
  datatype State = State(
    sizes: map<FileId, nat>,
    staged: map<FileId, bytes>,
    handlers: map<HandlerId, Phase>,
    pushed: seq<HandlerId>,
    completer: Option<HandlerId>,
    shreds: nat)

  datatype Step =
    | Patch(h: HandlerId, file: FileId, offset: int, body: bytes)
    | Check(h: HandlerId)
    | Push(h: HandlerId)
    | Shred

  function Staged(s: State, f: FileId): bytes {
    if f in s.staged then s.staged[f] else []
  }

  predicate Complete(s: State) {
    forall f :: f in s.sizes ==> |Staged(s, f)| == s.sizes[f]
  }

  /** The append section of a PATCH that got past its status check. A handler goes on to
      look at the other files only if its request is accepted and completes its own file. */
  function Append(s: State, h: HandlerId, f: FileId, offset: int, body: bytes): State
    requires f in s.sizes
  {
    var content := PatchFile(Staged(s, f), s.sizes[f], offset, body);
    if offset != |Staged(s, f)| then s
    else
      var s' := s.(staged := s.staged[f := content]);
      if !Accepts(Staged(s, f), s.sizes[f], offset, body) then s'
      else s'.(
        handlers := s.handlers[h := if |content| == s.sizes[f] then Checking else Finished],
        completer := if s.completer.None? && !Complete(s) && Complete(s') then Some(h) else s.completer)
  }

  predicate Enabled(s: State, step: Step) {
    match step
    case Patch(h, f, _, _) => h !in s.handlers && f in s.sizes
    case Check(h) => h in s.handlers && s.handlers[h] == Checking
    case Push(h) => h in s.handlers && s.handlers[h] == Pushing
    case Shred => s.pushed != []
  }

  function Next(s: State, step: Step): State
    requires Enabled(s, step)
  {
    match step
    case Patch(h, f, offset, body) => Append(s, h, f, offset, body)
    case Check(h) => s.(handlers := s.handlers[h := if Complete(s) then Pushing else Finished])
    case Push(h) => s.(handlers := s.handlers[h := Finished], pushed := s.pushed + [h])
    case Shred => s.(staged := map[], shreds := s.shreds + 1)
  }

  /** Steps that are not enabled are skipped, so every sequence of steps is a run. */
  function Run(s: State, steps: seq<Step>): State {
    if steps == [] then s
    else
      var before := Run(s, steps[..|steps| - 1]);
      var last := steps[|steps| - 1];
      if Enabled(before, last) then Next(before, last) else before
  }

  ghost predicate Initial(s: State) {
    && s.handlers == map[] && s.pushed == [] && s.completer == None && s.shreds == 0
    && forall f :: f in s.sizes ==> |Staged(s, f)| <= s.sizes[f]
  }

  /** The completing handler is on its way to pushing, or has pushed; only shredding, which
      itself needs a push, can stop it. */
  ghost predicate Inv(s: State) {
    && (forall f :: f in s.sizes ==> |Staged(s, f)| <= s.sizes[f])
    && (s.shreds > 0 ==> s.pushed != [])
    && (s.completer.Some? ==> s.completer.value in s.handlers)
    && (s.completer.Some? && s.shreds == 0 ==>
          Complete(s) && (s.handlers[s.completer.value] == Finished ==> s.completer.value in s.pushed))
  }

  /** A complete transfer stays complete under any PATCH. */
  lemma AppendKeepsComplete(s: State, h: HandlerId, f: FileId, offset: int, body: bytes)
    requires f in s.sizes
    ensures Complete(s) ==> Complete(Append(s, h, f, offset, body))
    ensures forall g :: g in s.sizes && |Staged(s, g)| <= s.sizes[g] ==>
              |Staged(Append(s, h, f, offset, body), g)| <= s.sizes[g]
  {
  }

  lemma NextKeepsInv(s: State, step: Step)
    requires Inv(s) && Enabled(s, step)
    ensures Inv(Next(s, step))
  {
    match step
    case Patch(h, f, offset, body) =>
      AppendKeepsComplete(s, h, f, offset, body);
      assert Complete(s.(staged := Next(s, step).staged)) <==> Complete(Next(s, step));
    case Check(h) =>
      assert Complete(s) <==> Complete(Next(s, step));
    case Push(h) =>
      assert Complete(s) <==> Complete(Next(s, step));
    case Shred =>
  }

  lemma {:induction false} RunKeepsInv(s: State, steps: seq<Step>)
    requires Inv(s)
    ensures Inv(Run(s, steps))
  {
    if steps != [] {
      RunKeepsInv(s, steps[..|steps| - 1]);
      var before := Run(s, steps[..|steps| - 1]);
      if Enabled(before, steps[|steps| - 1]) {
        NextKeepsInv(before, steps[|steps| - 1]);
      }
    }
  }

  /** In every interleaving: once the handler whose accepted append completed the transfer
      has finished, a job has been queued; and by that very handler unless a worker,
      started by some other handler's job, has shredded the staging files already. */
  lemma LastCompleterEnqueues(s: State, steps: seq<Step>)
    requires Initial(s)
    ensures var t := Run(s, steps);
            t.completer.Some? ==>
              && t.completer.value in t.handlers
              && (t.handlers[t.completer.value] == Finished ==>
                    t.pushed != [] && (t.shreds == 0 ==> t.completer.value in t.pushed))
  {
    RunKeepsInv(s, steps);
  }

  /** An instant of the run at which every file had its declared size. */
  ghost predicate WasComplete(s: State, steps: seq<Step>) {
    exists n :: 0 <= n <= |steps| && Complete(Run(s, steps[..n]))
  }

  /** Every push, done or about to be done, follows an instant at which all files were complete. */
  lemma {:induction false} PushFollowsCompletion(s: State, steps: seq<Step>, h: HandlerId)
    requires Initial(s)
    requires var t := Run(s, steps); h in t.pushed || (h in t.handlers && t.handlers[h] == Pushing)
    ensures WasComplete(s, steps)
  {
    assert steps != [];
    var init, last := steps[..|steps| - 1], steps[|steps| - 1];
    var before := Run(s, init);
    if h in before.pushed || (h in before.handlers && before.handlers[h] == Pushing) {
      PushFollowsCompletion(s, init, h);
      var n :| 0 <= n <= |init| && Complete(Run(s, init[..n]));
      assert init[..n] == steps[..n];
    } else {
      assert Complete(before);
      assert steps[..|init|] == init;
    }
  }

  /** A PATCH that takes the transfer from incomplete to complete goes on to look for
      completeness, and so to push, exactly when its body fits: an overlong last piece is
      cut to size and refused, and leaves a complete transfer that nobody queues. */
  lemma CompletingAppendChecksIffItFits(s: State, h: HandlerId, f: FileId, offset: int, body: bytes)
    requires f in s.sizes && h !in s.handlers && |Staged(s, f)| <= s.sizes[f]
    requires !Complete(s) && Complete(Append(s, h, f, offset, body))
    ensures var s' := Append(s, h, f, offset, body);
            (h in s'.handlers && s'.handlers[h] == Checking) <==> |Staged(s, f)| + |body| <= s.sizes[f]
  {
    var s' := Append(s, h, f, offset, body);
    assert offset == |Staged(s, f)|;
    assert Complete(s') ==> |Staged(s', f)| == s.sizes[f];
  }

  /** The concrete case: a one-byte file sent two bytes. */
  lemma OverlongLastPieceIsNotQueued()
    ensures var s := State(map[0 := 1], map[], map[], [], None, 0);
            var t := Run(s, [Step.Patch(0, 0, 0, [1, 2])]);
            Initial(s) && Complete(t) && t.pushed == [] && t.handlers == map[]
  {
    var s := State(map[0 := 1], map[], map[], [], None, 0);
    var step := Step.Patch(0, 0, 0, [1, 2]);
    assert [step][..0] == [];
    assert Run(s, [step]) == Next(s, step);
    assert PatchFile([], 1, 0, [1, 2]) == [1];
  }
}
