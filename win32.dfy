/**
 * The slice of the Win32 programming model that the service wrapper relies on:
 * 32-bit unsigned DWORDs, signed 32-bit HRESULTs, the error and status codes the
 * wrapper compares against, and the HRESULT_FROM_WIN32 / FAILED macros.
 */
module Win32 {

  datatype Option<+T> = None | Some(value: T)

  /** A value, or the failing HRESULT of the step that could not produce it. */
  datatype Result<+T> = Ok(value: T) | Err(hr: HResult)

  const TwoTo32: int := 0x1_0000_0000
  const TwoTo31: int := 0x8000_0000

  /** An unsigned 32-bit DWORD. */
  type Dword = x: int | 0 <= x < 0x1_0000_0000

  /** The error code a failing Win32 call leaves for GetLastError: never ERROR_SUCCESS. */
  type Win32Error = x: int | 0 < x < 0x1_0000_0000 witness 1

  /** A signed 32-bit HRESULT. */
  type HResult = x: int | -0x8000_0000 <= x < 0x8000_0000

  // HRESULT values
  const S_OK: HResult := 0
  const E_FAIL: HResult := 0x8000_4005 - 0x1_0000_0000
  const E_OUTOFMEMORY: HResult := 0x8007_000E - 0x1_0000_0000
  const E_INVALIDARG: HResult := 0x8007_0057 - 0x1_0000_0000
  /** StringCch* / StringCb* / PathCch* when the destination is too small. */
  const STRSAFE_E_INSUFFICIENT_BUFFER: HResult := 0x8007_007A - 0x1_0000_0000
  /** StringCchLength / StringCbLength when no terminator lies within the bound. */
  const STRSAFE_E_INVALID_PARAMETER: HResult := 0x8007_0057 - 0x1_0000_0000

  // Win32 error codes
  const NO_ERROR: Dword := 0
  const ERROR_FILE_NOT_FOUND: Win32Error := 2
  const ERROR_ALREADY_EXISTS: Win32Error := 183
  const ERROR_TIMEOUT: Win32Error := 1460

  // Wait results
  const WAIT_OBJECT_0: Dword := 0
  const WAIT_TIMEOUT: Dword := 0x102
  const WAIT_FAILED: Dword := 0xFFFF_FFFF

  /** FAILED(hr): the sign bit of the HRESULT is set. */
  predicate Failed(hr: HResult) { hr < 0 }

  predicate Succeeded(hr: HResult) { hr >= 0 }

  /** A DWORD read back as a signed 32-bit value (the cast `(HRESULT)x`). */
  function AsSigned(x: Dword): (r: HResult)
    ensures r == x || r == x - TwoTo32
    ensures (r < 0) <==> (x >= TwoTo31)
  {
    if x < TwoTo31 then x else x - TwoTo32
  }

  /** A signed value stored into a DWORD field: two's-complement truncation. */
  function ToDword(x: int): (r: Dword)
    ensures (r - x) % TwoTo32 == 0
    ensures 0 <= x < TwoTo32 ==> r == x
  {
    x % TwoTo32
  }

  /**
   * HRESULT_FROM_WIN32(x): a value that is non-positive as a signed number is kept,
   * anything else has its low 16 bits placed in FACILITY_WIN32 with the failure bit set.
   */
  function HResultFromWin32(x: Dword): HResult
  {
    if AsSigned(x) <= 0 then AsSigned(x)
    else (x % 0x1_0000) + 0x8007_0000 - TwoTo32
  }

  /** HRESULT_FROM_WIN32 fails exactly when its argument is not ERROR_SUCCESS. */
  lemma HResultFromWin32Fails(x: Dword)
    ensures Failed(HResultFromWin32(x)) <==> x != NO_ERROR
    ensures HResultFromWin32(NO_ERROR) == S_OK
  {
  }

  /** A Win32 error below 0x10000 survives the conversion: its low word is the original code. */
  lemma HResultFromWin32Code(x: Dword)
    requires 0 < x < 0x1_0000
    ensures (HResultFromWin32(x) + TwoTo32) % 0x1_0000 == x
    ensures (HResultFromWin32(x) + TwoTo32) / 0x1_0000 == 0x8007
  {
  }

  /** HRESULT_FACILITY(hr): bits 16..28 of the HRESULT. */
  function Facility(hr: HResult): (r: int)
    ensures 0 <= r < 0x2000
  {
    ((hr + TwoTo32) % TwoTo32 / 0x1_0000) % 0x2000
  }
}
