# Capture engine decision logic (screen_capture_lite, Windows back end)

This project models the decision logic of the Windows capture engine of
screen_capture_lite and proves properties of it in Dafny. It covers four parts:

- **Error classification.** `ProcessExit` turns a `DUPL_RETURN` code into one of
  two sticky flags of the thread data. The expected-error flag means restart the
  capture. The unexpected-error flag means exit.
- **The input-desktop gate.** `IsScreenCaptureEnabled` and `SwitchToInputDesktop`
  open the input desktop, attach the thread to it and close the handle.
  `SwitchToInputDesktop` also raises the expected-error flag when it fails.
- **Backend selection.** A monitor thread tries DirectX duplication first and
  falls back to GDI, unless GDI is pinned. A window thread uses only GDI.
  Nothing starts unless the gate passes.
- **The GDI frame processor.** It is a class with the fields the source updates:
  the selected monitor or window, the monitor/window DC, the memory DC, the
  capture bitmap, the image buffer and the thread data. Its two `Init` methods
  create the three GDI resources. Its two `ProcessFrame` methods select the
  bitmap, copy the screen or the window, read the pixels back with a 32-bit
  top-down DIB header, restore the original bitmap and hand the image on.

Every Win32 call is an outcome passed in as a parameter: a handle (0 is NULL) or
a success flag. A frame returns the calls it made as a trace (`GdiCall`). The
trace records the GDI calls with the arguments that vary, the names of logged failures
and the final `ProcessCapture` hand-over with its width, height and row stride.
From the trace the model states:

- which calls a frame makes, and in what order;
- which bitmap is selected into the memory DC at the end (`SelectedAfter`);
- what a frame does apart from logging (`Effects`).

Modules: `ScreenCapture` (shared types, the `Window` target and the
`ThreadData` flags), `ThreadRunner` and `GdiCapture`, one file each.

The model follows the code on these points:

- A failed resource allocation in `Init` returns `DUPL_RETURN_ERROR_EXPECTED`
  (restart), not a fatal error.
- Pinning the GDI method does not make a failure fatal. It only skips DirectX.
- A failed gate does not retry inside the thread. It raises the expected-error
  flag and the thread exits.
- The two outcomes are sticky flags shared with the orchestrator. A flag, once raised, is never cleared by the thread.

## Model

| member | source | states |
|---|---|---|
| ThreadRunner.ExitEvents | src_cpp/windows/ThreadRunner.cpp:17-29 | Success leaves both flags unchanged. ERROR_EXPECTED sets only the expected flag. Any other error sets only the unexpected flag. No flag is ever cleared. |
| ThreadRunner.ProcessExit | src_cpp/windows/ThreadRunner.cpp:17-29 | The thread data's flags after the call are ExitEvents of the flags before it. |
| ThreadRunner.ExitAllSticky | src_cpp/windows/ThreadRunner.cpp:17-29 | Over any run of ProcessExit calls, a flag ends up set exactly when it was set before or some call reported its kind of error. |
| ThreadRunner.IsScreenCaptureEnabled | src_cpp/windows/ThreadRunner.cpp:34-52 | The result is true iff OpenInputDesktop returned a handle and SetThreadDesktop succeeded. An opened handle is closed exactly once, as the last call, after the attach. No other handle is closed. A failed open makes no further call. |
| ThreadRunner.SwitchToInputDesktop | src_cpp/windows/ThreadRunner.cpp:53-78 | Returns the same decision and makes the same desktop calls as IsScreenCaptureEnabled. On failure the expected flag is set and the unexpected flag is unchanged. On success both flags are unchanged. |
| ThreadRunner.CanRequestScreenCapture | src_cpp/windows/ThreadRunner.cpp:32 | Always false. |
| ThreadRunner.MonitorAttempts | src_cpp/windows/ThreadRunner.cpp:89-102 | At most two loops start. No capture starts if the gate fails. A pinned GDI method never tries DirectX and tries GDI once. Otherwise DirectX is tried first, and GDI is tried iff DirectX returned false. |
| ThreadRunner.RunCaptureMonitor | src_cpp/windows/ThreadRunner.cpp:85-104 | Runs the gate and then starts exactly the capture loops MonitorAttempts gives. The flags change as in SwitchToInputDesktop. |
| ThreadRunner.WindowAttempts | src_cpp/windows/ThreadRunner.cpp:106-112 | A window thread starts only the GDI window capture, once, and only when the gate passes. |
| ThreadRunner.RunCaptureWindow | src_cpp/windows/ThreadRunner.cpp:106-112 | Runs the gate and then starts exactly the loops WindowAttempts gives. The flags change as in SwitchToInputDesktop. |
| ThreadRunner.RunCaptureMouse | src_cpp/windows/ThreadRunner.cpp:79-84 | Starts the GDI mouse capture iff the gate passes. The flags change as in SwitchToInputDesktop. |
| GdiCapture.InitOutcome | src_cpp/windows/GDIFrameProcessor.cpp:22-25 | Init succeeds iff the source DC, the memory DC and the bitmap all exist. Otherwise it returns ERROR_EXPECTED, never an unexpected error. |
| GdiCapture.GdiFrameProcessor.InitMonitor | src_cpp/windows/GDIFrameProcessor.cpp:7-29 | Returns InitOutcome of the three created handles. It stores the monitor, the three handles and a fresh zeroed buffer of ImageBufferSize bytes whatever the outcome. It stores the thread data only on success, and the processor is Ready exactly then. |
| GdiCapture.GdiFrameProcessor.InitWindow | src_cpp/windows/GDIFrameProcessor.cpp:30-51 | Same as InitMonitor, with GetWindowDC's result as source DC and the window handle stored in place of the monitor. A failing Init leaves the thread data unchanged. |
| GdiCapture.SizeImage | src_cpp/windows/GDIFrameProcessor.cpp:82 | biSizeImage computed with the source's integer types is below 2^32. With the signed product w·32+31 taken without overflow (see Left out), for width and height below 2^31 it equals w·4·h mod 2^32, and it equals w·4·h whenever that fits in a DWORD. |
| GdiCapture.DibHeader | src_cpp/windows/GDIFrameProcessor.cpp:72-82 | The header has 32 bits per pixel, BI_RGB, one plane and the width. Its height is -h, so rows come top-down. For sizes that fit, its image size is h rows of a width·4 stride. |
| GdiCapture.MonitorFrame | src_cpp/windows/GDIFrameProcessor.cpp:52-90 | Succeeds iff BitBlt succeeds and never returns an unexpected error. It first selects the capture bitmap and copies the full selected-monitor rectangle from the monitor DC. The originally selected bitmap is selected again at the end on both paths. On success the restore happens before the hand-over, which is the last call. |
| GdiCapture.MonitorFrameCalls | src_cpp/windows/GDIFrameProcessor.cpp:62-89 | The read-back and ProcessCapture happen iff BitBlt succeeds. A GetDIBits failure only adds a log entry. GetDIBits uses the selected monitor's size and DibHeader. ProcessCapture gets the current monitor's size and a stride of the selected width × 4. |
| GdiCapture.MonitorReadbackOnlyLogged | src_cpp/windows/GDIFrameProcessor.cpp:83-86 | A failed GetDIBits changes neither the return code nor any non-log call of a monitor frame. |
| GdiCapture.GdiFrameProcessor.ProcessMonitorFrame | src_cpp/windows/GDIFrameProcessor.cpp:52-90 | Requires the thread data to be set when the copy succeeds, since the hand-over dereferences it. The return code and the calls made are those of MonitorFrame for the processor's stored monitor and handles. |
| GdiCapture.WindowFrame | src_cpp/windows/GDIFrameProcessor.cpp:92-164 | Returns ERROR_EXPECTED iff the window is invalid, its client size differs from the stored size, or both PrintWindow and BitBlt fail. It never returns an unexpected error. An invalid or resized window makes no GDI call, only a log entry. Otherwise it first selects the capture bitmap into the memory DC and asks the window to print itself into that DC. When PrintWindow fails, the failure is logged and the next call copies from the window DC at the negated client-border offset with the client rectangle's right/bottom as extent. The original bitmap is selected again at the end on every path. On success the restore comes just before the hand-over, which is the last call and carries the stored size and stride. |
| GdiCapture.WindowFrameCalls | src_cpp/windows/GDIFrameProcessor.cpp:105-161 | PrintWindow is tried iff the window passed the checks. BitBlt is tried iff PrintWindow then failed. The read-back and ProcessCapture happen iff the frame succeeds, and a GetDIBits failure only adds a log entry. The header and stride use the stored size (width × 4). |
| GdiCapture.WindowReadbackOnlyLogged | src_cpp/windows/GDIFrameProcessor.cpp:158-161 | A failed GetDIBits changes neither the return code nor any non-log call of a window frame. |
| GdiCapture.GdiFrameProcessor.ProcessWindowFrame | src_cpp/windows/GDIFrameProcessor.cpp:92-164 | Requires the thread data to be set when the frame reaches the hand-over. The window's position becomes the client rectangle's left/top on every path, including the error paths, and its size is unchanged. The return code and calls are those of WindowFrame. |

## Left out

- The effects of the Win32 and GDI calls themselves are not modelled: creating DCs and bitmaps, copying, printing, reading back, opening and attaching desktops, `IsWindow` and the window-geometry query. Each is an outcome passed in as a parameter. Pixel contents are not modelled.
- `GetLastError` codes and the logging callback's arguments are not modelled. A frame trace records only the names of the operations it logs. The logging in monitor `Init` and in the gate is not recorded.
- `SystemParametersInfo(SPI_SETANIMATION, ...)` in window `Init` is not modelled. It is a global OS side effect with no result the engine checks.
- The commented-out child-window compositing in window `ProcessFrame` is not modelled, because it is dead code.
- `TryCaptureMonitor`, `TryCaptureWindow`, `TryCaptureMouse`, `DXFrameProcessor`, `GDIMouseProcessor` and `ProcessCapture` are outside this model. The DirectX loop's boolean result is a parameter, a started loop is a recorded `Attempt`, and `ProcessCapture` is a recorded call.
- RunCaptureMonitor: the flags are stated only up to the started loops. Whatever the started capture loops do to the flags is not modelled.
- RunCaptureWindow: as RunCaptureMonitor, the started loop's effect on the flags is not modelled.
- RunCaptureMouse: as RunCaptureMonitor, the flags are stated only up to the start of the mouse loop. What `TryCaptureMouse` does to them is not modelled.
- The no-op `RequestScreenCapture`, thread start-up, the cross-thread use of the flags, the debug console output and the "exiting thread" log lines are not modelled. They are concurrency and I/O plumbing.
- SizeImage: integer overflow of the 32-bit signed products in the DIB header (`w*32+31` overflows from a width of 2^26 on) is not modelled, because the C++ behaviour there is undefined. The conversion to the 64-bit `size_t` and the truncation to the 32-bit `DWORD` are modelled.
- The RAII wrappers around the DC and bitmap handles are not modelled. No handle is released when `Init` overwrites it.
