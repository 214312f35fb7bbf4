/** The two GitHub readers the supervisor lives on (src/github.rs): the paginated runner list and
    the queued-job count. The HTTP calls are a map from URLs to answers. */
module GitHub {
  import opened Prelude

  datatype Runner = Runner(id: nat, name: string, status: string, busy: bool, labels: seq<string>) {
    predicate Online() { status == "online" }
    predicate HasLabel(l: string) { l in labels }
  }

  // ---------- runner list ----------

  datatype Page = Page(runners: seq<Runner>, next: Option<string>)

  datatype Listing =
    | Complete(runners: seq<Runner>)
    | RequestFailed
    | ForeignLink(url: string)
    | Unfinished

  function Concat(server: map<string, Page>, urls: seq<string>): seq<Runner>
    requires forall u :: u in urls ==> u in server
  {
    if urls == [] then []
    else Concat(server, urls[..|urls| - 1]) + server[urls[|urls| - 1]].runners
  }

  /** The requests form one chain of `next` links, each of which begins with the text of the API base. */
  predicate LinkChain(server: map<string, Page>, apiBase: string, start: string, asked: seq<string>)
  {
    && (asked != [] ==> asked[0] == start)
    && (forall i :: 1 <= i < |asked| ==> Follows(server, apiBase, asked[i - 1], asked[i]))
  }

  predicate Follows(server: map<string, Page>, apiBase: string, url: string, next: string)
  {
    url in server && server[url].next == Some(next) && apiBase <= next
  }

  /** `limit` bounds the number of requests, since nothing in the code bounds a cycle of links. */
  method ListRunners(server: map<string, Page>, apiBase: string, start: string, limit: nat)
    returns (r: Listing, asked: seq<string>)
    ensures LinkChain(server, apiBase, start, asked)
    ensures match r
            case Complete(runners) =>
              asked != [] && (forall u :: u in asked ==> u in server) &&
              server[asked[|asked| - 1]].next == None && runners == Concat(server, asked)
            case RequestFailed => asked != [] && asked[|asked| - 1] !in server
            case ForeignLink(url) =>
              asked != [] && asked[|asked| - 1] in server &&
              server[asked[|asked| - 1]].next == Some(url) && !(apiBase <= url)
            case Unfinished => |asked| == limit
  {
    asked := [];
    var out: seq<Runner> := [];
    var url := start;
    for k := 0 to limit
      invariant |asked| == k && LinkChain(server, apiBase, start, asked)
      invariant if k == 0 then url == start else Follows(server, apiBase, asked[k - 1], url)
      invariant forall u :: u in asked ==> u in server
      invariant out == Concat(server, asked)
    {
      var before := asked;
      asked := asked + [url];
      if url !in server { return RequestFailed, asked; }
      out := out + server[url].runners;
      assert asked[..|asked| - 1] == before;
      match server[url].next {
        case None => return Complete(out), asked;
        case Some(n) =>
          if !(apiBase <= n) { return ForeignLink(n), asked; }
          url := n;
      }
    }
    return Unfinished, asked;
  }

  /** The list is the pages of the requests, all of them, in order. */
  lemma {:induction false} PagesJoin(server: map<string, Page>, a: seq<string>, b: seq<string>)
    requires forall u :: u in a || u in b ==> u in server
    ensures Concat(server, a + b) == Concat(server, a) + Concat(server, b)
  {
    if b == [] {
      assert a + b == a;
    } else {
      var init, last := b[..|b| - 1], b[|b| - 1];
      PagesJoin(server, a, init);
      assert a + b == (a + init) + [last] && b == init + [last];
      OneMorePage(server, a + init, last);
      OneMorePage(server, init, last);
    }
  }

  lemma OneMorePage(server: map<string, Page>, urls: seq<string>, url: string)
    requires url in server && forall u :: u in urls ==> u in server
    ensures Concat(server, urls + [url]) == Concat(server, urls) + server[url].runners
  {
    assert (urls + [url])[..|urls|] == urls;
  }

  // ---------- where the links lead ----------

  /** The characters that end the authority part of a URL (section 3.2 of RFC 3986). */
  predicate EndsAuthority(c: char) { c == '/' || c == '?' || c == '#' }

  function UpToEnd(s: string): string
  {
    if s == [] || EndsAuthority(s[0]) then [] else [s[0]] + UpToEnd(s[1..])
  }

  /** The host, with any port and user, of `scheme://...`. */
  function Authority(scheme: string, url: string): string
    requires scheme + "://" <= url
  {
    UpToEnd(url[|scheme| + 3..])
  }

  lemma {:induction false} UpToEndGrows(s: string, tail: string)
    ensures UpToEnd(s + tail) ==
            if exists i :: 0 <= i < |s| && EndsAuthority(s[i]) then UpToEnd(s) else s + UpToEnd(tail)
  {
    if s == [] {
      assert s + tail == tail;
    } else {
      assert (s + tail)[0] == s[0] && (s + tail)[1..] == s[1..] + tail;
      if !EndsAuthority(s[0]) {
        UpToEndGrows(s[1..], tail);
        assert s == [s[0]] + s[1..];
        if i :| 0 <= i < |s| && EndsAuthority(s[i]) { assert EndsAuthority(s[1..][i - 1]); }
      }
    }
  }

  lemma {:induction false} UpToEndWhole(s: string)
    requires forall i :: 0 <= i < |s| ==> !EndsAuthority(s[i])
    ensures UpToEnd(s) == s
  {
    if s != [] { UpToEndWhole(s[1..]); }
  }

  /** When a link that begins with the text of the API base stays with the base's authority, exactly: the
      base has a path, or the link ends there, or goes on with a slash, a question mark or a hash. */
  lemma SameAuthorityExact(scheme: string, host: string, tail: string)
    ensures var apiBase := scheme + "://" + host;
            Authority(scheme, apiBase + tail) == Authority(scheme, apiBase) <==>
              (exists i :: 0 <= i < |host| && EndsAuthority(host[i])) || tail == [] || EndsAuthority(tail[0])
  {
    var head := scheme + "://";
    assert head + host + tail == head + (host + tail);
    assert (head + (host + tail))[|scheme| + 3..] == host + tail && (head + host)[|scheme| + 3..] == host;
    UpToEndGrows(host, tail);
    if forall i :: 0 <= i < |host| ==> !EndsAuthority(host[i]) { UpToEndWhole(host); }
  }

  const API_HOST := "api.github.com"

  /** The test passes links to other hosts: from the default base, one to `api.github.com.example` is
      followed. */
  lemma LinkLeavesHost(server: map<string, Page>, url: string)
    requires url in server && server[url].next == Some("https" + "://" + API_HOST + ".example/x")
    ensures var apiBase := "https" + "://" + API_HOST;
            var link := apiBase + ".example/x";
            Follows(server, apiBase, url, link) && Authority("https", link) != Authority("https", apiBase)
  {
    var apiBase := "https" + "://" + API_HOST;
    PlainHost();
    SameAuthorityExact("https", API_HOST, ".example/x");
    assert apiBase <= apiBase + ".example/x";
  }

  lemma PlainHost()
    ensures forall i :: 0 <= i < |API_HOST| ==> !EndsAuthority(API_HOST[i])
  {}

  // ---------- queued jobs ----------

  datatype Job = Job(status: string, labels: seq<string>)

  /** The queued jobs of the runs whose job list could be fetched. */
  function QueuedJobs(runs: seq<nat>, jobs: map<nat, seq<Job>>): seq<Job>
  {
    if runs == [] then []
    else
      var last := runs[|runs| - 1];
      QueuedJobs(runs[..|runs| - 1], jobs) + (if last in jobs then Waiting(jobs[last]) else [])
  }

  lemma OneMoreRun(runs: seq<nat>, run: nat, jobs: map<nat, seq<Job>>)
    ensures QueuedJobs(runs + [run], jobs) ==
            QueuedJobs(runs, jobs) + if run in jobs then Waiting(jobs[run]) else []
  {
    assert (runs + [run])[..|runs|] == runs;
  }

  function Waiting(js: seq<Job>): seq<Job>
  {
    if js == [] then []
    else Waiting(js[..|js| - 1]) + (if js[|js| - 1].status == "queued" then [js[|js| - 1]] else [])
  }

  /** What is counted, run by run and job by job: of each run whose jobs could be fetched, the jobs with the
      status `queued`, in order. */
  lemma {:induction false} QueuedJobsJoin(a: seq<nat>, b: seq<nat>, jobs: map<nat, seq<Job>>)
    ensures QueuedJobs(a + b, jobs) == QueuedJobs(a, jobs) + QueuedJobs(b, jobs)
  {
    if b == [] {
      assert a + b == a;
    } else {
      var init, last := b[..|b| - 1], b[|b| - 1];
      QueuedJobsJoin(a, init, jobs);
      Regroup(a, init, last, b);
      OneMoreRun(a + init, last, jobs);
      OneMoreRun(init, last, jobs);
    }
  }

  lemma Regroup<T>(a: seq<T>, init: seq<T>, last: T, b: seq<T>)
    requires b == init + [last]
    ensures a + b == (a + init) + [last]
  {
  }

  lemma OneRun(run: nat, jobs: map<nat, seq<Job>>)
    ensures QueuedJobs([run], jobs) == if run in jobs then Waiting(jobs[run]) else []
  {
    assert [run][..0] == [];
  }

  lemma {:induction false} WaitingJoins(a: seq<Job>, b: seq<Job>)
    ensures Waiting(a + b) == Waiting(a) + Waiting(b)
  {
    if b == [] {
      assert a + b == a;
    } else {
      WaitingJoins(a, b[..|b| - 1]);
      assert (a + b)[..|a + b| - 1] == a + b[..|b| - 1];
    }
  }

  lemma WaitingOne(j: Job)
    ensures Waiting([j]) == if j.status == "queued" then [j] else []
  {
    assert [j][..0] == [];
  }

  /** How often a label occurs over a list of jobs. */
  function Occurrences(js: seq<Job>, l: string): nat
  {
    if js == [] then 0 else Occurrences(js[..|js| - 1], l) + multiset(js[|js| - 1].labels)[l]
  }

  lemma {:induction false} OccurrencesAppend(a: seq<Job>, b: seq<Job>, l: string)
    ensures Occurrences(a + b, l) == Occurrences(a, l) + Occurrences(b, l)
    ensures forall j: Job :: Occurrences([j], l) == multiset(j.labels)[l]
  {
    forall j: Job ensures Occurrences([j], l) == multiset(j.labels)[l] {
      assert [j][..0] == [];
    }
    if b == [] {
      assert a + b == a;
    } else {
      assert (a + b)[..|a + b| - 1] == a + b[..|b| - 1];
      OccurrencesAppend(a, b[..|b| - 1], l);
    }
  }

  function Lookup(m: map<string, nat>, l: string): nat { if l in m then m[l] else 0 }

  /** `m` counts the labels of `js`, and lists no label that does not occur. */
  ghost predicate Counts(m: map<string, nat>, js: seq<Job>)
  {
    && (forall l :: Lookup(m, l) == Occurrences(js, l))
    && (forall l :: l in m ==> m[l] > 0)
  }

  /** Repository scope only; a run whose jobs cannot be fetched is skipped. */
  method QueuedLabels(isRepo: bool, runs: Option<seq<nat>>, jobs: map<nat, seq<Job>>)
    returns (out: map<string, nat>)
    ensures Counts(out, if isRepo && runs.Some? then QueuedJobs(runs.value, jobs) else [])
  {
    out := map[];
    if !isRepo || runs.None? { return; }
    var ids := runs.value;
    for k := 0 to |ids|
      invariant Counts(out, QueuedJobs(ids[..k], jobs))
    {
      assert ids[..k + 1][..|ids[..k + 1]| - 1] == ids[..k];
      if ids[k] in jobs {
        out := CountRun(out, QueuedJobs(ids[..k], jobs), jobs[ids[k]]);
      } else {
        assert QueuedJobs(ids[..k + 1], jobs) == QueuedJobs(ids[..k], jobs);
      }
    }
    assert ids[..|ids|] == ids;
  }

  method CountRun(counts: map<string, nat>, ghost done: seq<Job>, js: seq<Job>) returns (out: map<string, nat>)
    requires Counts(counts, done)
    ensures Counts(out, done + Waiting(js))
  {
    out := counts;
    assert done + Waiting(js[..0]) == done;
    for k := 0 to |js|
      invariant Counts(out, done + Waiting(js[..k]))
    {
      assert js[..k + 1][..|js[..k + 1]| - 1] == js[..k];
      if js[k].status == "queued" {
        assert done + Waiting(js[..k + 1]) == done + Waiting(js[..k]) + [js[k]];
        out := CountJob(out, done + Waiting(js[..k]), js[k]);
      } else {
        assert Waiting(js[..k + 1]) == Waiting(js[..k]);
      }
    }
    assert js[..|js|] == js;
  }

  method CountJob(counts: map<string, nat>, ghost done: seq<Job>, job: Job) returns (out: map<string, nat>)
    requires Counts(counts, done)
    ensures Counts(out, done + [job])
  {
    out := counts;
    for k := 0 to |job.labels|
      invariant forall l :: Lookup(out, l) == Occurrences(done, l) + multiset(job.labels[..k])[l]
      invariant forall l :: l in out ==> out[l] > 0
    {
      var l := job.labels[k];
      assert job.labels[..k + 1] == job.labels[..k] + [l];
      out := out[l := Lookup(out, l) + 1];
    }
    assert job.labels[..|job.labels|] == job.labels;
    forall l ensures Lookup(out, l) == Occurrences(done + [job], l) {
      OccurrencesAppend(done, [job], l);
      assert Occurrences([job], l) == multiset(job.labels)[l] by { assert [job][..0] == []; }
    }
  }

  // ---------- what a pool reads from the count ----------

  /** A pool's demand: the largest count among its labels. */
  function Demand(labels: seq<string>, queued: map<string, nat>): nat
  {
    if labels == [] then 0 else Max(Lookup(queued, labels[0]), Demand(labels[1..], queued))
  }

  lemma {:induction false} DemandIsLargest(labels: seq<string>, queued: map<string, nat>)
    ensures forall l :: l in labels ==> Lookup(queued, l) <= Demand(labels, queued)
    ensures labels != [] ==> exists l :: l in labels && Lookup(queued, l) == Demand(labels, queued)
  {
    if labels != [] {
      DemandIsLargest(labels[1..], queued);
      assert labels == [labels[0]] + labels[1..];
      assert labels[0] in labels;
      if |labels| > 1 {
        var l :| l in labels[1..] && Lookup(queued, l) == Demand(labels[1..], queued);
        assert l in labels;
      }
    }
  }

  predicate Mentions(job: Job, labels: seq<string>) { exists i :: 0 <= i < |labels| && labels[i] in job.labels }

  function Mentioning(js: seq<Job>, labels: seq<string>): nat
  {
    if js == [] then 0
    else Mentioning(js[..|js| - 1], labels) + if Mentions(js[|js| - 1], labels) then 1 else 0
  }

  predicate NoRepeats(labels: seq<string>) { forall i, j :: 0 <= i < j < |labels| ==> labels[i] != labels[j] }

  lemma {:induction false} CountOfDistinct(labels: seq<string>, l: string)
    requires NoRepeats(labels)
    ensures multiset(labels)[l] == if l in labels then 1 else 0
  {
    if labels != [] {
      assert labels == [labels[0]] + labels[1..];
      CountOfDistinct(labels[1..], l);
    }
  }

  lemma {:induction false} OccurrencesAreMentions(js: seq<Job>, labels: seq<string>, l: string)
    requires forall i :: 0 <= i < |js| ==> NoRepeats(js[i].labels)
    requires l in labels
    ensures Occurrences(js, l) <= Mentioning(js, labels)
    ensures labels == [l] ==> Occurrences(js, l) == Mentioning(js, labels)
  {
    if js != [] {
      var job := js[|js| - 1];
      OccurrencesAreMentions(js[..|js| - 1], labels, l);
      CountOfDistinct(job.labels, l);
      var i :| 0 <= i < |labels| && labels[i] == l;
      assert labels[i] in job.labels <==> l in job.labels;
    }
  }

  /** When no job repeats a label, a pool never counts more demand than there are queued jobs that
      mention one of its labels; a pool with one label counts exactly those. */
  lemma {:induction false} DemandBound(labels: seq<string>, all: seq<string>, queued: map<string, nat>, js: seq<Job>)
    requires Counts(queued, js)
    requires forall i :: 0 <= i < |js| ==> NoRepeats(js[i].labels)
    requires forall l :: l in labels ==> l in all
    ensures Demand(labels, queued) <= Mentioning(js, all)
    ensures |labels| == 1 && labels == all ==> Demand(labels, queued) == Mentioning(js, all)
  {
    if labels != [] {
      OccurrencesAreMentions(js, all, labels[0]);
      DemandBound(labels[1..], all, queued, js);
      if |labels| == 1 { assert labels == [labels[0]]; }
    }
  }
}
