/** The thread entry points of the capture engine: error classification into
    the two sticky flags, the input-desktop gate every capture thread passes
    first, and the choice of capture backend. The outcomes of the operating
    system calls and of the capture loops are parameters. */
module ThreadRunner {
  import opened ScreenCapture

  // ---------------------------------------------------------------------
  // Error classification

  /** The flags after one ProcessExit call with return code `ret`. */
  function ExitEvents(e: ErrorEvents, ret: DuplReturn): (r: ErrorEvents)
    ensures Raised(e, r)
    ensures ret == Success ==> r == e
    ensures ret == ErrorExpected ==> r.expected && r.unexpected == e.unexpected
    ensures ret == ErrorUnexpected ==> r.unexpected && r.expected == e.expected
  {
    match ret
    case Success => e
    case ErrorExpected => e.(expected := true)
    case ErrorUnexpected => e.(unexpected := true)
  }

  /** Raises the flag that matches a non-success return code. */
  method ProcessExit(ret: DuplReturn, t: ThreadData)
    modifies t
    ensures t.Events() == ExitEvents(old(t.Events()), ret)
  {
    if ret != Success {
      if ret == ErrorExpected {
        // a transition state: the capture is to be restarted
        t.expectedErrorEvent := true;
      } else {
        // anything else makes the capture thread exit
        t.unexpectedErrorEvent := true;
      }
    }
  }

  /** The flags after a run of ProcessExit calls, one per return code. */
  function ExitAll(e: ErrorEvents, rets: seq<DuplReturn>): (r: ErrorEvents)
    decreases |rets|
  {
    if rets == [] then e else ExitAll(ExitEvents(e, rets[0]), rets[1..])
  }

  /** The flags are sticky: after any run of ProcessExit calls a flag is set
      exactly when it was set before or some call reported its kind of error;
      in particular no call ever clears a flag. */
  lemma {:induction false} ExitAllSticky(e: ErrorEvents, rets: seq<DuplReturn>)
    decreases |rets|
    ensures Raised(e, ExitAll(e, rets))
    ensures ExitAll(e, rets).expected <==> e.expected || ErrorExpected in rets
    ensures ExitAll(e, rets).unexpected <==> e.unexpected || ErrorUnexpected in rets
  {
    if rets != [] {
      ExitAllSticky(ExitEvents(e, rets[0]), rets[1..]);
      assert rets == [rets[0]] + rets[1..];
    }
  }

  // ---------------------------------------------------------------------
  // Input-desktop gate

  /** The desktop calls a gate makes, in order. */
  datatype DesktopCall = OpenInputDesktop | SetThreadDesktop(desk: Handle) | CloseDesktop(desk: Handle)

  /** How many times `calls` closes desktop handle `h`. */
  function Closes(calls: seq<DesktopCall>, h: Handle): (n: nat)
  {
    if calls == [] then 0
    else (if calls[0] == CloseDesktop(h) then 1 else 0) + Closes(calls[1..], h)
  }

  /** The open, attach, close sequence closes its own handle once and no
      other handle. */
  lemma ClosesAfterAttach(desk: Handle)
    ensures forall h :: Closes([OpenInputDesktop, SetThreadDesktop(desk), CloseDesktop(desk)], h)
                        == if h == desk then 1 else 0
  {
    var calls := [OpenInputDesktop, SetThreadDesktop(desk), CloseDesktop(desk)];
    forall h
      ensures Closes(calls, h) == if h == desk then 1 else 0
    {
      var tail := [CloseDesktop(desk)];
      assert tail[1..] == [];
      assert Closes(tail, h) == if h == desk then 1 else 0;
      assert calls[1..][1..] == tail;
      assert Closes(calls[1..], h) == Closes(tail, h);
    }
  }

  /** What a gate decides and which calls it made to decide it. */
  datatype Gate = Gate(attached: bool, calls: seq<DesktopCall>)

  /** Whether the calling thread can be attached to the input desktop, given
      the handle OpenInputDesktop returns (Null when it fails) and whether
      SetThreadDesktop succeeds. A handle that was opened is closed exactly
      once, after the attach attempt and whatever its outcome, and no other
      handle is ever closed. */
  function IsScreenCaptureEnabled(desk: Handle, attachOk: bool): (g: Gate)
    ensures g.attached <==> desk != Null && attachOk
    ensures |g.calls| > 0 && g.calls[0] == OpenInputDesktop
    ensures desk == Null ==> g.calls == [OpenInputDesktop]
    ensures desk != Null ==> Closes(g.calls, desk) == 1
    ensures desk != Null ==> g.calls[|g.calls| - 1] == CloseDesktop(desk)
    ensures desk != Null ==> SetThreadDesktop(desk) in g.calls[..|g.calls| - 1]
    ensures forall h :: h != desk ==> Closes(g.calls, h) == 0
  {
    if desk == Null then
      Gate(false, [OpenInputDesktop])
    else
      var calls := [OpenInputDesktop, SetThreadDesktop(desk), CloseDesktop(desk)];
      ClosesAfterAttach(desk);
      Gate(attachOk, calls)
  }

  /** The gate run by every capture thread: as IsScreenCaptureEnabled, and on
      failure it also raises the expected-error flag, so that the
      orchestrator restarts the capture. */
  method SwitchToInputDesktop(t: ThreadData, desk: Handle, attachOk: bool)
    returns (ok: bool, calls: seq<DesktopCall>)
    modifies t
    ensures Gate(ok, calls) == IsScreenCaptureEnabled(desk, attachOk)
    ensures ok ==> t.Events() == old(t.Events())
    ensures !ok ==> t.Events() == old(t.Events()).(expected := true)
  {
    calls := [OpenInputDesktop];
    if desk == Null {
      t.expectedErrorEvent := true;
      ProcessExit(ErrorExpected, t);
      return false, calls;
    }
    calls := calls + [SetThreadDesktop(desk)];
    var attached := attachOk;
    calls := calls + [CloseDesktop(desk)];
    if !attached {
      t.expectedErrorEvent := true;
      ProcessExit(ErrorExpected, t);
      return false, calls;
    }
    ok := true;
  }

  /** Requesting screen-capture permission is never possible here. */
  function CanRequestScreenCapture(): (r: bool)
    ensures !r
  {
    false
  }

  // ---------------------------------------------------------------------
  // Backend selection

  datatype Processor = DXFrameProcessor | GDIFrameProcessor | GDIMouseProcessor

  /** One capture loop started by a thread entry point. */
  datatype Attempt = CaptureMonitor(p: Processor) | CaptureWindow(p: Processor) | CaptureMouse(p: Processor)

  /** The capture loops a monitor thread starts, given the pinned method, the
      gate's decision and whether the DirectX loop reported success. Nothing
      is started when the gate fails; a pinned GDI method starts GDI only;
      otherwise DirectX is tried first and GDI only when it fails. */
  function MonitorAttempts(m: CaptureMethod, gateOk: bool, dxOk: bool): (a: seq<Attempt>)
    ensures !gateOk ==> a == []
    ensures |a| <= 2
    ensures gateOk && m == Gdi ==> a == [CaptureMonitor(GDIFrameProcessor)]
    ensures gateOk && m != Gdi ==> |a| > 0 && a[0] == CaptureMonitor(DXFrameProcessor)
    ensures CaptureMonitor(DXFrameProcessor) in a <==> gateOk && m != Gdi
    ensures CaptureMonitor(GDIFrameProcessor) in a <==> gateOk && (m == Gdi || !dxOk)
    ensures forall x :: x in a ==> x.CaptureMonitor? && x.p != GDIMouseProcessor
  {
    if !gateOk then []
    else if m == Gdi then [CaptureMonitor(GDIFrameProcessor)]
    else if dxOk then [CaptureMonitor(DXFrameProcessor)]
    else [CaptureMonitor(DXFrameProcessor), CaptureMonitor(GDIFrameProcessor)]
  }

  /** Thread entry point for a monitor. */
  method RunCaptureMonitor(t: ThreadData, monitor: Monitor, desk: Handle, attachOk: bool, dxOk: bool)
    returns (attempts: seq<Attempt>)
    modifies t
    ensures attempts == MonitorAttempts(t.captureMethod, IsScreenCaptureEnabled(desk, attachOk).attached, dxOk)
    ensures IsScreenCaptureEnabled(desk, attachOk).attached ==> t.Events() == old(t.Events())
    ensures !IsScreenCaptureEnabled(desk, attachOk).attached ==> t.Events() == old(t.Events()).(expected := true)
  {
    var ok, _ := SwitchToInputDesktop(t, desk, attachOk);
    if !ok {
      return [];
    }
    attempts := [];
    var fallback := t.captureMethod == Gdi;
    if !fallback {
      attempts := attempts + [CaptureMonitor(DXFrameProcessor)];
      fallback := !dxOk;
    }
    if fallback {
      // DirectX is not supported or is disabled
      attempts := attempts + [CaptureMonitor(GDIFrameProcessor)];
    }
  }

  /** The capture loops a window thread starts: GDI, once the gate passes. */
  function WindowAttempts(gateOk: bool): (a: seq<Attempt>)
    ensures CaptureWindow(GDIFrameProcessor) in a <==> gateOk
    ensures |a| <= 1 && forall x :: x in a ==> x == CaptureWindow(GDIFrameProcessor)
  {
    if gateOk then [CaptureWindow(GDIFrameProcessor)] else []
  }

  /** Thread entry point for a window. */
  method RunCaptureWindow(t: ThreadData, desk: Handle, attachOk: bool)
    returns (attempts: seq<Attempt>)
    modifies t
    ensures attempts == WindowAttempts(IsScreenCaptureEnabled(desk, attachOk).attached)
    ensures IsScreenCaptureEnabled(desk, attachOk).attached ==> t.Events() == old(t.Events())
    ensures !IsScreenCaptureEnabled(desk, attachOk).attached ==> t.Events() == old(t.Events()).(expected := true)
  {
    var ok, _ := SwitchToInputDesktop(t, desk, attachOk);
    attempts := [];
    if ok {
      attempts := [CaptureWindow(GDIFrameProcessor)];
    }
  }

  /** Thread entry point for the mouse cursor: GDI, once the gate passes. */
  method RunCaptureMouse(t: ThreadData, desk: Handle, attachOk: bool)
    returns (attempts: seq<Attempt>)
    modifies t
    ensures attempts == (if IsScreenCaptureEnabled(desk, attachOk).attached then [CaptureMouse(GDIMouseProcessor)] else [])
    ensures IsScreenCaptureEnabled(desk, attachOk).attached ==> t.Events() == old(t.Events())
    ensures !IsScreenCaptureEnabled(desk, attachOk).attached ==> t.Events() == old(t.Events()).(expected := true)
  {
    var ok, _ := SwitchToInputDesktop(t, desk, attachOk);
    attempts := [];
    if ok {
      attempts := [CaptureMouse(GDIMouseProcessor)];
    }
  }
}
