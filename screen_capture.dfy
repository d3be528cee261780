/** Types shared by the capture engine: platform handles, the duplication
    return codes, capture targets, and the per-thread data whose two sticky
    error flags tell the orchestrator whether to restart or to give up. */
module ScreenCapture {

  /** An opaque platform handle (HDC, HBITMAP, HDESK, HWND). Zero is NULL. */
  type Handle = nat

  const Null: Handle := 0

  /** DUPL_RETURN: the outcome of one Init or ProcessFrame call. */
  datatype DuplReturn = Success | ErrorExpected | ErrorUnexpected

  /** The capture method a caller may pin; only the GDI value is compared against by
      the engine, every other value means "try DirectX first". */
  datatype CaptureMethod = Gdi | Default

  datatype Point = Point(x: int, y: int)

  /** A monitor as the engine sees it: its index and name (used to open its
      device context) and its size in pixels. */
  datatype Monitor = Monitor(index: int, name: string, width: int, height: int)

  /** A rectangle given by its edges. */
  datatype ImageRect = ImageRect(left: int, top: int, right: int, bottom: int)

  function Width(r: ImageRect): int { r.right - r.left }

  function Height(r: ImageRect): int { r.bottom - r.top }

  /** What the window-geometry query reports: the client rectangle and the
      thickness of the border between the window's outer edge and its client
      area. */
  datatype WindowDimensions = WindowDimensions(clientRect: ImageRect, clientBorder: ImageRect)

  /** A window capture target. The frame processor updates its position in
      place every frame; its size is the size the capture was set up for. */
  class Window {
    const handle: Handle
    var position: Point
    var size: Point

    constructor (handle: Handle, position: Point, size: Point)
      ensures this.handle == handle && this.position == position && this.size == size
    {
      this.handle := handle;
      this.position := position;
      this.size := size;
    }
  }

  /** The two error flags of the thread data, as one value. */
  datatype ErrorEvents = ErrorEvents(expected: bool, unexpected: bool)

  /** `b` has every flag that `a` has: flags are only ever raised. */
  predicate Raised(a: ErrorEvents, b: ErrorEvents)
  {
    (a.expected ==> b.expected) && (a.unexpected ==> b.unexpected)
  }

  /** The data a capture thread shares with its orchestrator: the pinned
      capture method and the flags raised on an expected (restart) or an
      unexpected (exit) error. */
  class ThreadData {
    const captureMethod: CaptureMethod
    var expectedErrorEvent: bool
    var unexpectedErrorEvent: bool

    constructor (captureMethod: CaptureMethod)
      ensures this.captureMethod == captureMethod
      ensures !expectedErrorEvent && !unexpectedErrorEvent
    {
      this.captureMethod := captureMethod;
      expectedErrorEvent := false;
      unexpectedErrorEvent := false;
    }

    function Events(): ErrorEvents
      reads this
    {
      ErrorEvents(expectedErrorEvent, unexpectedErrorEvent)
    }
  }
}
