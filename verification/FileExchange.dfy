/** The whole-file exchange under its callers' compare-and-swap: two paths in one
    directory, primitives that may fail at any call, and an outside editor who
    may rewrite the file at any time up to the exchange itself. */
module FileExchange {
  import opened Text
  import opened PeerProtocol

  const MAX_CONFIG_BYTES := 4194304

  datatype ExchangeResult = Displaced(body: string) | Conflict | Failed

  class Directory {
    var destination: string
    /** The staged file, while there is one. */
    var staged: Option<string>
    /** Whether the editor may still act, and whether primitives may fail. */
    var editor: bool
    var faulty: bool
    /** What the destination would hold had only the editor acted. */
    ghost var theirs: string

    constructor (body: string, editor: bool, faulty: bool)
      ensures destination == theirs == body && staged == None
      ensures this.editor == editor && this.faulty == faulty
    {
      destination, staged, theirs := body, None, body;
      this.editor, this.faulty := editor, faulty;
    }

    method Edit()
      modifies this`destination, this`theirs
      ensures !editor ==> destination == old(destination) && theirs == old(theirs)
      ensures old(destination) == old(theirs) ==> destination == theirs
    {
      var acts: bool := *;
      if editor && acts {
        var body: string := *;
        destination, theirs := body, body;
      }
    }

    /** A primitive that may fail without effect. */
    method Try() returns (ok: bool)
      ensures !faulty ==> ok
    {
      ok := true;
      if faulty {
        ok := *;
      }
    }

    method ReadDestination() returns (ok: bool, body: string)
      ensures ok ==> body == destination
      ensures !faulty ==> ok
    {
      body := destination;
      ok := Try();
    }

    method ReadStaged() returns (ok: bool, body: string)
      ensures ok ==> staged == Some(body)
      ensures !faulty && staged.Some? ==> ok
    {
      ok, body := false, "";
      if staged.Some? {
        body := staged.value;
        ok := Try();
      }
    }

    /** Creates, writes and syncs the staged file; a failure may leave part of it. */
    method Stage(body: string) returns (ok: bool)
      requires staged == None
      modifies this`staged
      ensures ok ==> staged == Some(body)
      ensures !faulty ==> ok
    {
      ok := Try();
      if ok {
        staged := Some(body);
        ok := Try();
        if !ok {
          var part: string := *;
          staged := Some(part);
        }
      }
    }

    /** Atomically swaps the two paths, or fails and changes nothing. */
    method RenameExchange() returns (ok: bool)
      requires staged.Some?
      modifies this`destination, this`staged
      ensures if ok then destination == old(staged).value && staged == Some(old(destination))
              else destination == old(destination) && staged == old(staged)
      ensures !faulty ==> ok
    {
      ok := Try();
      if ok {
        destination, staged := staged.value, Some(destination);
      }
    }

    /** Removes the staged file unless it is kept as evidence. */
    method CleanUp(keep: bool)
      modifies this`staged
      ensures keep ==> staged == old(staged)
      ensures !keep && !faulty ==> staged == None
    {
      if !keep {
        var ok := Try();
        if ok {
          staged := None;
        }
      }
    }

    /** Swaps back after a failed check.  Whatever happens, the editor's text is
        in one of the two places. */
    method SwapBack(proposed: string) returns (kept: bool)
      requires destination == proposed && staged == Some(theirs)
      modifies this`destination, this`staged
      ensures if kept then destination == proposed && staged == Some(theirs) else destination == theirs
      ensures !faulty ==> !kept && staged == None
    {
      var swapped := RenameExchange();
      if swapped {
        CleanUp(false);
      }
      kept := !swapped;
    }

    /** Compare-and-swap on the text the editor left.  Success means that this
        text had the expected hash, that it is returned, and that the proposed
        text is in its place.  A failure leaves the editor's text in place, or,
        if the swap back failed too, keeps it as evidence in the staged file.
        Without an editor and without faults the hash alone decides. */
    method ExchangeConfig(expected: Hash, proposed: string) returns (result: ExchangeResult)
      requires destination == theirs && staged == None
      modifies this`destination, this`staged, this`theirs, this`editor
      ensures result.Displaced? ==> result.body == theirs && Hash(theirs) == expected && destination == proposed
      ensures !result.Displaced? ==> destination == theirs || (destination == proposed && staged == Some(theirs))
      ensures !old(editor) ==> theirs == old(destination)
      ensures !old(editor) && !result.Displaced? && destination != old(destination) ==> Hash(old(destination)) == expected
      ensures !old(editor) && !faulty ==>
                (result.Displaced? <==> Bytes(proposed) <= MAX_CONFIG_BYTES && Hash(old(destination)) == expected)
      ensures !faulty ==> staged == None
    {
      if Bytes(proposed) > MAX_CONFIG_BYTES {
        return Failed;
      }
      Edit();
      var read, current := ReadDestination();
      if !read {
        return Failed;
      }
      if Hash(current) != expected {
        return Conflict;
      }
      Edit();
      var ready := Stage(proposed);
      if !ready {
        CleanUp(false);
        return Failed;
      }
      Edit();
      var exchanged := RenameExchange();
      if !exchanged {
        CleanUp(false);
        return Failed;
      }
      editor := false;
      result := Check(expected, proposed);
    }

    /** Hashes both files after the exchange. */
    method Check(expected: Hash, proposed: string) returns (result: ExchangeResult)
      requires destination == proposed && staged == Some(theirs)
      modifies this`destination, this`staged
      ensures result.Displaced? ==> result.body == theirs && Hash(theirs) == expected && destination == proposed
      ensures !result.Displaced? ==> destination == theirs || (destination == proposed && staged == Some(theirs))
      ensures !faulty ==> (result.Displaced? <==> Hash(theirs) == expected) && staged == None
    {
      var read, displaced := ReadStaged();
      if !read || Hash(displaced) != expected {
        var kept := SwapBack(proposed);
        return Conflict;
      }
      var verified, body := ReadDestination();
      if !verified || Hash(body) != Hash(proposed) {
        var kept := SwapBack(proposed);
        return Failed;
      }
      var synced := Try();
      if !synced {
        var kept := SwapBack(proposed);
        return Failed;
      }
      CleanUp(false);
      return Displaced(displaced);
    }
  }
}
