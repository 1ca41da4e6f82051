# Uptime tracker registry, modelled in Dafny

The page keeps a list of monitored websites. Each site has an id, a URL, a
status (`pending`, `up` or `down`) and a latency in milliseconds. The user
adds a URL. The page probes every site in list order once a minute, and also
probes a site right after it is added. Each probe updates the site's status
and latency. A success toast is shown when a site comes back up, and an alert
when a site goes down. The dashboard shows how many sites there are, how many
are up and how many are down.

The model has three modules:

- `Url` (`url.dfy`) covers the add form's input handling. `Trim` is
  JavaScript's `trim`, with the ECMAScript whitespace and line-terminator
  characters listed out. `Normalize` adds `https://` to input that does not
  start with `http`.
- `Sites` (`sites.dfy`) holds the site, probe, notice and transition values,
  plus the pure part of reconciliation:
  - `Probed` is the entry after a probe;
  - `NoticeFor` is the notice decided on the old status;
  - `Step` is one check by id, with first-match lookup as `findIndex` does it;
  - `Sweep` is the sequential pass;
  - `WithoutId` is the filter used by removal;
  - `CountStatus` and `Dashboard` are the dashboard counts.
- `Monitor` (`monitor.dfy`) holds the class `Registry`. It owns the `websites`
  list as a `seq<Site>` field. Its methods `Add`, `Remove`, `Check` and
  `CheckAll` change that field the way `addWebsite`, `removeWebsite`,
  `checkSingleWebsite` and `checkAllWebsites` change the global array. Each
  method's `ensures` gives the new list in terms of the old one, through the
  functions of `Sites`. Two client methods, `FirstProbeScenario` and
  `RecoveryScenario`, walk through the add / fail / recover sequence using
  only those contracts.

The network probe and the clock are inputs. A probe is a `Probe(reachable,
latency)` value. `CheckAll` takes one probe per site, in list order. The new
site's id, which the page takes from the clock, is a parameter of `Add`.

Three behaviours of the code shape the model:

- **Ids can repeat.** Ids come from `Date.now()` (script.js:46) and are never
  checked, so two sites can share one. The model does not assume that ids are
  distinct.
  - A check by id updates the first site with that id (`findIndex`,
    script.js:138).
  - `removeWebsite` removes every site with that id (script.js:57).
  - A pass never reaches a site whose id an earlier site already has: every
    check by that id stops at the earlier site (`SweepShadowed`).
    `DuplicateIdShadowed` is a two-site instance.
  - The per-site guarantees of a pass are proved under distinct ids
    (`SweepDistinct`).
- **Only the prefix `http` is tested** (script.js:43). So `httpbin.org` is
  stored as it is, and `ftp://x` becomes `https://ftp://x`.
- **An up site can have latency 0.** The measured latency is a clock
  difference (script.js:147), and two readings can be equal.

## Model

| member | source | states |
|---|---|---|
| `Url.Trim` | script.js:40 | The result has no whitespace at either end. It is empty exactly when the input is all whitespace. |
| `Url.TrimIsInfix` | script.js:40 | The trimmed string is the infix that starts at the first non-whitespace character. Everything cut away before and after it is whitespace. |
| `Url.TrimIdempotent` | script.js:40 | Trimming an already trimmed string changes nothing. |
| `Url.Normalize` | script.js:43 | Input that starts with `http` is kept as it is. Other input becomes `"https://" + input`. Either way the result starts with `http` and ends with the input. |
| `Url.NormalizeIdempotent` | script.js:43 | Normalising a stored URL again leaves it unchanged. |
| `Monitor.Registry.constructor` | script.js:25 | The registry starts as the stored list, which the caller supplies. |
| `Monitor.Registry.Add` | script.js:38-54 | Blank input is rejected as `EmptyUrl` and the list is unchanged. A normalised URL already present is rejected as `DuplicateUrl` and the list is unchanged. Otherwise exactly one site `(id, url, pending, 0)` is appended at the end. Add keeps "latency 0 unless up" and distinct URLs. It keeps distinct ids when the new id is fresh. |
| `Monitor.Registry.Remove` | script.js:56-60 | The new list is the old one filtered by id. Remove keeps "latency 0 unless up" and distinct URLs. |
| `Sites.WithoutId` | script.js:57 | A site is kept iff it was present and its id differs. The result is no longer than the input. An absent id leaves the list unchanged. |
| `Sites.WithoutIdAppend` | script.js:57 | Filtering distributes over concatenation, so the kept sites stay in their original relative order. |
| `Sites.WithoutIdSingle` | script.js:57 | A single site is dropped iff it has the id. |
| `Sites.WithoutIdKeepsInvariants` | script.js:57 | Removal keeps "latency 0 unless up" and keeps URLs distinct. |
| `Sites.FindIndex` | script.js:138-139 | Returns -1 iff no site has the id. Otherwise it returns the position of the first site with that id. |
| `Sites.Probed` | script.js:147-158 | The id and url are kept. The new status is never pending, and it is up iff the probe succeeded. A success carries the measured latency. A site that is not up has latency 0. |
| `Sites.NoticeFor` | script.js:149-160 | A back-up notice iff the old status was down and the probe succeeded. An alert iff the old status was up and the probe failed. Otherwise nothing. Any notice names the site's URL. |
| `Sites.Classify` | script.js:149-160 | The transition is "unchanged" iff the status did not change. It is "first result" iff the old status was pending. |
| `Sites.NoticeFollowsTransition` | script.js:153-160 | A back-up notice comes exactly with a recovery and an alert exactly with a degradation. A first result or an unchanged status raises nothing. |
| `Sites.Step` | script.js:137-161 | One check keeps the number of sites, and every site's id and url. |
| `Sites.StepSpec` | script.js:137-161 | An absent id changes nothing and raises nothing. Otherwise only the first site with the id changes: it takes the probe outcome and raises the notice decided on its old status. |
| `Sites.StepKeepsLatencyConsistent` | script.js:149-158 | A check keeps "latency 0 unless up". |
| `Monitor.Registry.Check` | script.js:137-165 | The new list and the notice are those of one `Step` on the old list. Check keeps "latency 0 unless up" and distinct URLs. |
| `Sites.Sweep` | script.js:167-171 | A pass keeps the number of sites and every site's id and url. It yields one notice per check. |
| `Sites.SweepKeepsLatencyConsistent` | script.js:167-171 | A pass keeps "latency 0 unless up". |
| `Sites.SweepPrefix` | script.js:167-171 | With distinct ids, after the first `i` checks each of the first `i` sites has taken its own probe and raised its own notice. The later sites are untouched. |
| `Sites.SweepDistinct` | script.js:167-171 | With distinct ids, a full pass probes every site exactly once, in list order. Site `k` takes probe `k` and raises notice `k`. |
| `Sites.SweepDistinctCounts` | script.js:167-171 | With distinct ids, after a full pass no site is pending and every site has latency 0 unless up. The up count equals the number of successful probes. The down count equals the number of failed probes. |
| `Sites.ProbedCounts` | script.js:64-66 | Sites that have all been probed include no pending site, and their up count is the number of successful probes. |
| `Sites.SweepShadowed` | script.js:137-171 | When a site shares its id with an earlier site, any pass leaves the later site exactly as it was. |
| `Sites.DuplicateIdShadowed` | script.js:168-169 | Take two sites that share an id. A pass checks the first one twice and leaves the second one pending. |
| `Monitor.Registry.CheckAll` | script.js:167-171 | The new list and the notices are those of the pass over the old list's ids in order, with one probe per site. CheckAll keeps "latency 0 unless up" and distinct URLs. With distinct ids, site `k` takes probe `k` and raises notice `k`. |
| `Sites.CountStatus` | script.js:65-66 | The count is at most the length of the list. It is 0 iff no site has the status. It equals the length iff every site has the status. |
| `Sites.CountsPartition` | script.js:64-66 | The pending, up and down counts add up to the total. |
| `Sites.Dashboard` | script.js:62-66 | The total is the list length. Online plus offline is at most the total, with equality iff no site is pending. Online equals the total iff every site is up. |

## Left out

- Page navigation, list and chart rendering, toasts and system notifications
  (script.js:1-21, script.js:68-135, script.js:175-187) are left out. They are
  display side effects. A notice is modelled only as the value `Notice`, and a
  rejected add only as the value `AddError`.
- Loading from and saving to `localStorage` with `JSON.parse` and
  `JSON.stringify` (script.js:25, script.js:173) are left out. They are calls
  into the browser's storage and JSON library. The constructor takes the
  stored list as given. The loaded data is not validated, so the invariants
  (latency 0 unless up, distinct URLs) are proved to be kept by each
  operation, not assumed of the initial list.
- The `fetch` request and the `Date.now()` timing (script.js:143-147) are left
  out. They are network and clock input, and become the `Probe` parameter.
  The id taken from `Date.now()` (script.js:46) is the `id` parameter of
  `Add`.
- A negative measured latency is not modelled. `Date.now() - start`
  (script.js:147) is negative if the clock is set back while the request is in
  flight, but `Probe.latency` and `Site.latency` are natural numbers. No
  contract depends on the sign of the latency.
- The one-minute `setInterval` and the start-up pass on `DOMContentLoaded`
  (script.js:27-36) are left out. They are timer plumbing: each pass is one
  `CheckAll` call.
- The probe that `addWebsite` starts right after appending (script.js:52) is
  not a separate operation. It is a `Check` of the new id, made after `Add`,
  as `FirstProbeScenario` shows.
- The interleaving across the `await` at script.js:146 is left out. It is
  asynchronous concurrency: a check is one atomic step. So the model does not
  capture a stale index when the list is reassigned while a probe is in
  flight.
- The pie percentages and the bar-height clamping (script.js:103-135) are left
  out. They are floating-point chart arithmetic.
- JavaScript strings are sequences of UTF-16 code units, while the model uses
  Unicode characters. The whitespace set of `trim` is listed explicitly.
- Ids are JavaScript numbers, modelled as unbounded integers.
