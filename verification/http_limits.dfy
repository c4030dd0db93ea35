/** The sizes that differ between the builds (src/http_source.c:67-78). Everything is proved for any of them. */
module HttpLimits {

  datatype Limits = Limits(rbufSize: nat, poolMax: nat, maxLive: nat)

  const PS4: Limits := Limits(16 * 1024, 2, 4)
  const PS5: Limits := Limits(64 * 1024, 6, 48)
}
