/** Values the store hands back: optional results, the exceptions it raises and the
    outcome of ASP.NET Identity operations. */
module Outcomes {

  /** A value that may be absent: a C# null reference or a "not found" answer. */
  datatype Option<+T> = None | Some(value: T)

  /** The exceptions the store lets escape, one constructor per cause. */
  datatype Error =
    | OperationCanceled              // OperationCanceledException from the cancellation token
    | ObjectDisposed                 // ObjectDisposedException from ThrowIfDisposed
    | ArgumentNull(paramName: string) // ArgumentNullException, with the parameter it names
    | NullReference                  // a null argument the method dereferences without checking it
    | MoreThanOneMatch               // InvalidOperationException from SingleOrDefault
    | CollectionModified             // InvalidOperationException from a List enumerator
    | DuplicateClaims                // the plain Exception AddClaimsAsync throws
    | DbUpdateConcurrency            // DbUpdateConcurrencyException from SaveChanges
    | DbUpdate                       // any other DbUpdateException from SaveChanges

  /** A call either returns a value or throws. */
  datatype Result<+T> = Ok(value: T) | Err(error: Error) {
    /** The same exception, as the result of a call with another return type. */
    function PropagateTo<U>(): (r: Result<U>)
      requires Err?
      ensures r.Err? && r.error == error
    {
      Err(error)
    }
  }

  /** The only error the store reports as a value rather than an exception. */
  datatype IdentityError = ConcurrencyFailure

  datatype IdentityResult = Success | Failed(error: IdentityError)

  /** What the database does when it is asked to commit. */
  datatype DbOutcome = Commit | ConcurrencyConflict | UpdateFailure

  /** The result of SaveChanges: a no-op when automatic saving is off, otherwise the
      database's outcome. */
  function SaveResult(autoSave: bool, outcome: DbOutcome): (r: Result<()>)
    ensures r.Ok? <==> !autoSave || outcome == Commit
    ensures r == Err(DbUpdateConcurrency) <==> autoSave && outcome == ConcurrencyConflict
  {
    if !autoSave then Ok(())
    else match outcome
      case Commit => Ok(())
      case ConcurrencyConflict => Err(DbUpdateConcurrency)
      case UpdateFailure => Err(DbUpdate)
  }

  /** How UpdateAsync and DeleteAsync report a save: a concurrency exception becomes a
      failed IdentityResult built by the store's ErrorDescriber, every other exception
      escapes. With no describer assigned, building the failure dereferences null. */
  function ConcurrencyMapped(save: Result<()>, hasDescriber: bool): (r: Result<IdentityResult>)
    ensures r == Ok(Failed(ConcurrencyFailure)) <==> save == Err(DbUpdateConcurrency) && hasDescriber
    ensures r == Ok(Success) <==> save.Ok?
    ensures save == Err(DbUpdateConcurrency) && !hasDescriber ==> r == Err(NullReference)
    ensures r.Err? <==> save.Err? && (save.error != DbUpdateConcurrency || !hasDescriber)
    ensures r.Err? && save.error != DbUpdateConcurrency ==> r.error == save.error
  {
    match save
    case Ok(_) => Ok(Success)
    case Err(DbUpdateConcurrency) => if hasDescriber then Ok(Failed(ConcurrencyFailure)) else Err(NullReference)
    case Err(e) => Err(e)
  }
}
