// The error codes that the service and its database manager share.

module ErrorCodes {
  const ERR_OK: int := 0
  const ERR_INVALID_PARAM: int := 401
  const ERR_SYSYTEM_ERROR: int := 17300001
  const ERR_DB_CONNECT_FAILED: int := 17300004
}
