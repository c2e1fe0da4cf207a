/** Time as src/daemonproxy.c keeps it: 32.32 fixed-point seconds of the monotonic clock,
    and the seconds and microseconds that select is given.
  */
module Clock {

  const SECOND: int := 0x1_0000_0000
  const BILLION: int := 1_000_000_000
  const MILLION: int := 1_000_000

  // gettime_mon_frac: the fraction always fits in the low 32 bits, so joining the halves is adding them.
  function FromTimespec(sec: nat, nsec: nat): (t: nat)
    requires nsec < BILLION
    ensures sec * SECOND <= t < (sec + 1) * SECOND
  {
    sec * SECOND + (nsec * SECOND / BILLION) % SECOND
  }

  // A nanosecond is more than four units, so no two clock readings are confused and their order is kept.
  lemma ReadingsOrdered(s: nat, n: nat, s': nat, n': nat)
    requires n < BILLION && n' < BILLION
    ensures FromTimespec(s, n) < FromTimespec(s', n') <==> s < s' || (s == s' && n < n')
    ensures FromTimespec(s, n) == FromTimespec(s', n') <==> s == s' && n == n'
  {
    FractionOrdered(n, n');
    FractionOrdered(n', n);
  }

  lemma FractionOrdered(n: nat, n': nat)
    requires n < BILLION && n' < BILLION
    ensures 0 <= n * SECOND / BILLION < SECOND
    ensures n < n' ==> n * SECOND / BILLION < n' * SECOND / BILLION
  {
  }

  // The timeout for select: never beyond the deadline, and short of it by less than a microsecond.
  method Timeout(next: int, now: int) returns (sec: nat, usec: nat)
    ensures usec < MILLION && (next <= now ==> sec == 0 && usec == 0)
    ensures next > now ==> 0 <= (next - now) * MILLION - (sec * MILLION + usec) * SECOND < SECOND
  {
    if next - now > 0 {
      sec := (next - now) / SECOND;
      usec := ((next - now) % SECOND * MILLION) / SECOND;
    } else {
      sec, usec := 0, 0;
    }
  }
}
