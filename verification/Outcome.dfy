/** What a fallible operation of the installer returns: a value, or the reason it refused. */
module Outcome {

  /** Why an operation was refused. One constructor stands for one family of messages. */
  datatype Error =
    | NoModules
    | DifferentProcesses
    | AddressOverflow
    | RangesOverlap
    | WriteOutside
    | AnchorOutside
    | WritesOverlap
    | HashUnreadable
    | HashDiffers
    | PayloadLength
    | AllocationOverflow
    | OutOfReach
    | NoCell
    | NoExport
    | InitializeFailed
    | ReadFailed
    | WriteFailed
    | ReserveFailed
    | SiteModified
    | InvalidBranch
    | ForeignHooks
    | PartiallyInstalled
    | AnchorDiffers
    | SiteDiffers
    | CodeDiffers
    | PayloadNotTaken
    | HookNotTaken
    | RollbackFailed
    | SiteMissing
    | SiteAmbiguous
    | SitesMovedApart
    | NotCovered
    | MovedDifferently
    | OutsideModule
    | BranchLeavesModule
    | StockSplit
    | NoStock
    | NoEdit
    | OutOfBounds
    | RunsOffTheEnd
    | UnsupportedOpcode
    | TooLong
    | NeedsRelocation
    | TooFewBytes
    | UnexpectedEnd
    | UnexpectedByte
    | BadLiteral
    | BadEscape
    | ControlCharacter
    | BadUtf8
    | BadNumber
    | BeyondTheModel
    | TrailingText
    | FileTooLarge
    | Truncated
    | BadMagic
    | BadVersion
    | BadDuration
    | TooManyTracks
    | TooManyKeys
    | NameTooLong
    | EmptyName
    | NameDiffers
    | DuplicateName
    | NotFinite
    | TimeOutside
    | TimesDecrease
    | WrongComponents
    | TrailingData
    | ZeroQuaternion
    | UnequalLengths
    | BadKey
    | BadLoopSource
    | NoLoopKeys
    | EmptyChannel
    | UnusableChannel
    | MissingTrack
    | BadSkeleton
    | BadLoopDuration
    | AnimatedTrackMissing
    | SpanOutsideImage
    | TruncatedRead
    | NotAnImage
    | BadExportCount
    | UnterminatedName
    | BadOrdinal
    | ForwardedExport
    | BadStatus
    | BadStatusVersion
    | OtherProcess
    | BadState

  datatype Result<+T> = Ok(value: T) | Err(error: Error) {
    predicate IsFailure() {
      Err?
    }

    function PropagateFailure<U>(): Result<U>
      requires Err?
    {
      Err(error)
    }

    function Extract(): T
      requires Ok?
    {
      value
    }
  }

  datatype Option<+T> = None | Some(value: T)
}
