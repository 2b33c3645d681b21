/**
 * The handler slot: a report handler paired with the report types it
 * subscribes to and a liveness flag. Delivery goes through the slot, so a
 * delivery that runs after the handler was unregistered does nothing.
 */
module ReportHandlerWrappers {
  import opened Shared

  class ReportHandlerWrapper {
    const handler: HandlerId
    /** The report types as passed to the constructor, duplicates included. */
    ghost const declaredReportTypes: seq<ReportType>
    const reportTypes: set<ReportType>
    var isRegistered: bool
    /** The file infos the wrapped handler has been invoked with, oldest first. */
    var handled: seq<FileInfo>

    ghost predicate Valid()
    {
      reportTypes == Elements(declaredReportTypes)
    }

    /** A new slot is live and its handler has not been invoked yet. */
    constructor (handler: HandlerId, reportTypes: seq<ReportType>)
      ensures Valid()
      ensures this.handler == handler && declaredReportTypes == reportTypes
      ensures isRegistered && handled == []
    {
      this.handler := handler;
      this.declaredReportTypes := reportTypes;
      this.reportTypes := Elements(reportTypes);
      isRegistered := true;
      handled := [];
    }

    /**
     * Clears the liveness flag. Nothing sets it again (no method but the
     * constructor writes true), so the slot stays inactive; the report
     * types and the invocation log are untouched.
     */
    method MarkUnregistered()
      modifies this`isRegistered
      ensures !isRegistered
    {
      isRegistered := false;
    }

    /** Invokes the wrapped handler with `info` iff the slot is live at call time; otherwise does nothing. */
    method Handle(info: FileInfo)
      modifies this`handled
      ensures old(isRegistered) ==> handled == old(handled) + [info]
      ensures !old(isRegistered) ==> handled == old(handled)
    {
      if isRegistered {
        handled := handled + [info];
      }
    }

    /** True iff `reportType` is one of the report types given to the constructor. */
    function HandlesReportType(reportType: ReportType): (r: bool)
      requires Valid()
      ensures r <==> reportType in declaredReportTypes
    {
      ElementsMembers(declaredReportTypes);
      reportType in reportTypes
    }
  }

  /**
   * Marking a slot unregistered twice is the same as once, and every later
   * delivery through it is suppressed. (The report-type query reads no
   * mutable state, so unregistering cannot change its answer.)
   */
  method UnregisterThenHandle(slot: ReportHandlerWrapper, info: FileInfo)
    modifies slot
    ensures !slot.isRegistered && slot.handled == old(slot.handled)
  {
    slot.MarkUnregistered();
    slot.MarkUnregistered();
    slot.Handle(info);
  }
}
