/** Large definitions of the project are sealed: `forall k :: Unfold(seal, k) ==> definition`. A proof sees
    inside one only after it has asserted Unfold, so code that merely hands it on stays cheap to verify. */
module Seals {
  datatype Seal =
    | AskSeal | BalanceSeal | CondenseSeal | CountSeal | CutSeal | DataSeal | DeliverySeal | FoundSeal | GatherSeal
    | GraphSeal | InvSeal | KeptSeal | KeysSeal | LastPassSeal | LeftSeal | LogSeal | LoopSeal | MeetSeal
    | MergeSeal | OrderSeal | OtherPassSeal | PostSeal | ReadySeal | RepPassSeal | RepSeal | RunSeal
    | SearchSeal | StartSeal | SubtractSeal | SumSeal | TallySeal | TopoSeal | TraceSeal | ValuesSeal | VecSeal
    | WorkSeal

  ghost predicate Unfold(seal: Seal, k: int) {
    true
  }
}
