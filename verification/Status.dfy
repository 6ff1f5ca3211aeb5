/** Return codes of commands (src/common/status.hpp); a TEST answers with a version number instead. */
module Status {
  const VELOC_SUCCESS: int := 0
  const VELOC_FAILURE: int := -1
  const VELOC_IGNORED: int := -2
}
