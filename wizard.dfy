/** The remote-Linux device-configuration wizard: seven pages, the data the wizard
    collects as the user moves from one to the next (`nextId`), and the configuration
    it finally adds (`createDeviceConfig`). The contents of the pages' widgets at the
    moment the user presses "Next" are inputs. */
module Wizard {
  import opened QtText
  import Decimal

  /** The operating systems the start page offers. */
  datatype OsType = Maemo5 | Harmattan | MeeGo | GenericLinux

  datatype DeviceType = Physical | Emulator

  datatype AuthType = ByPassword | ByKey

  /** What the wizard has collected so far. */
  datatype WizardData = WizardData(
    configName: string, hostName: string, osType: OsType, authType: AuthType,
    deviceType: DeviceType, privateKeyFilePath: string, publicKeyFilePath: string,
    userName: string, password: string)

  const StartPageId := 0
  const LoginDataPageId := 1
  const PreviousKeySetupCheckPageId := 2
  const ReuseKeysCheckPageId := 3
  const KeyCreationPageId := 4
  const KeyDeploymentPageId := 5
  const FinalPageId := 6

  predicate IsPage(id: int) { StartPageId <= id <= FinalPageId }

  // ---------------------------------------------------------------------------
  // The pages

  /** The start page: the texts typed in, the radio buttons chosen, and the default
      host of an emulator for the chosen OS (which the start page looks up). */
  datatype StartPage = StartPage(
    nameText: string, hostText: string, os: OsType, device: DeviceType, emulatorHost: string)

  function ConfigName(p: StartPage): string { Trimmed(p.nameText) }

  function HostName(p: StartPage): string
  {
    if p.device == Emulator then p.emulatorHost else Trimmed(p.hostText)
  }

  /** Choosing generic Linux checks the hardware button and disables both device
      buttons, so the start page never offers a generic-Linux emulator. */
  predicate Consistent(p: StartPage)
  {
    p.os == GenericLinux ==> p.device == Physical
  }

  predicate StartComplete(p: StartPage)
  {
    ConfigName(p) != [] && HostName(p) != []
  }

  datatype LoginDataPage = LoginDataPage(
    userText: string, auth: AuthType, password: string, keyPath: string, keyPathValid: bool)

  predicate LoginDataComplete(p: LoginDataPage)
  {
    Trimmed(p.userText) != [] && (p.auth == ByPassword || p.keyPathValid)
  }

  datatype PreviousKeySetupCheckPage = PreviousKeySetupCheckPage(
    keyWasSetUp: bool, keyPath: string, keyPathValid: bool)

  predicate PreviousKeySetupCheckComplete(p: PreviousKeySetupCheckPage)
  {
    !p.keyWasSetUp || p.keyPathValid
  }

  datatype ReuseKeysCheckPage = ReuseKeysCheckPage(
    reuseKeys: bool, privatePath: string, privateValid: bool, publicPath: string, publicValid: bool)

  predicate ReuseKeysCheckComplete(p: ReuseKeysCheckPage)
  {
    !p.reuseKeys || (p.publicValid && p.privateValid)
  }

  /** The key-creation page: the directory chosen, and whether the keys have been
      created and saved there. */
  datatype KeyCreationPage = KeyCreationPage(keyDir: string, keysCreated: bool)

  predicate KeyCreationComplete(p: KeyCreationPage) { p.keysCreated }

  /** The private key file the key-creation page writes: `qtc_id_rsa` in the chosen
      directory. */
  function PrivateKeyFilePath(p: KeyCreationPage): (r: string)
    ensures |r| == |p.keyDir| + 11 && r[..|p.keyDir|] == p.keyDir
  {
    p.keyDir + "/qtc_id_rsa"
  }

  /** The public key file: the private key file's name with `.pub` appended. */
  function PublicKeyFilePath(p: KeyCreationPage): (r: string)
    ensures |r| == |PrivateKeyFilePath(p)| + 4
  {
    PrivateKeyFilePath(p) + ".pub"
  }

  /** The two key files are different files in the chosen directory, the public one
      named after the private one, and different directories give different files. */
  lemma KeyFilePaths(p: KeyCreationPage, q: KeyCreationPage)
    ensures PrivateKeyFilePath(p) != PublicKeyFilePath(p)
    ensures PublicKeyFilePath(p)[..|PrivateKeyFilePath(p)|] == PrivateKeyFilePath(p)
    ensures PrivateKeyFilePath(p)[|p.keyDir|..] == "/qtc_id_rsa"
    ensures PrivateKeyFilePath(p) == PrivateKeyFilePath(q) <==> p.keyDir == q.keyDir
  {
    if PrivateKeyFilePath(p) == PrivateKeyFilePath(q) {
      assert p.keyDir == PrivateKeyFilePath(p)[..|p.keyDir|];
    }
  }

  /** The key-deployment page: the address typed in and whether the key has been
      deployed. */
  datatype KeyDeploymentPage = KeyDeploymentPage(addressText: string, deployed: bool)

  predicate KeyDeploymentComplete(p: KeyDeploymentPage) { p.deployed }

  function HostAddress(p: KeyDeploymentPage): string { Trimmed(p.addressText) }

  /** The contents of all the pages when the user presses "Next". */
  datatype Pages = Pages(
    start: StartPage, login: LoginDataPage, previous: PreviousKeySetupCheckPage,
    reuse: ReuseKeysCheckPage, creation: KeyCreationPage, deployment: KeyDeploymentPage)

  /** The `isComplete` of the page `id`: what enables its "Next" button. */
  predicate PageComplete(id: int, p: Pages)
  {
    if id == StartPageId then StartComplete(p.start)
    else if id == LoginDataPageId then LoginDataComplete(p.login)
    else if id == PreviousKeySetupCheckPageId then PreviousKeySetupCheckComplete(p.previous)
    else if id == ReuseKeysCheckPageId then ReuseKeysCheckComplete(p.reuse)
    else if id == KeyCreationPageId then KeyCreationComplete(p.creation)
    else if id == KeyDeploymentPageId then KeyDeploymentComplete(p.deployment)
    else true
  }

  // ---------------------------------------------------------------------------
  // nextId

  /** The page that follows `current`; -1 after the final page or for an unknown id. */
  function NextPage(current: int, p: Pages): int
  {
    if current == StartPageId then
      if p.start.device == Emulator then FinalPageId
      else if p.start.os == GenericLinux then LoginDataPageId
      else PreviousKeySetupCheckPageId
    else if current == LoginDataPageId then FinalPageId
    else if current == PreviousKeySetupCheckPageId then
      if p.previous.keyWasSetUp then FinalPageId else ReuseKeysCheckPageId
    else if current == ReuseKeysCheckPageId then
      if p.reuse.reuseKeys then KeyDeploymentPageId else KeyCreationPageId
    else if current == KeyCreationPageId then KeyDeploymentPageId
    else if current == KeyDeploymentPageId then FinalPageId
    else -1
  }

  /** The wizard data after leaving page `current`. */
  function Collect(d: WizardData, current: int, p: Pages): WizardData
  {
    if current == StartPageId then
      d.(configName := ConfigName(p.start), osType := p.start.os,
         deviceType := p.start.device, hostName := HostName(p.start))
    else if current == LoginDataPageId then
      var d1 := d.(userName := Trimmed(p.login.userText), authType := p.login.auth);
      if p.login.auth == ByPassword then d1.(password := p.login.password)
      else d1.(privateKeyFilePath := p.login.keyPath)
    else if current == PreviousKeySetupCheckPageId then
      if p.previous.keyWasSetUp then d.(privateKeyFilePath := p.previous.keyPath) else d
    else if current == ReuseKeysCheckPageId then
      if p.reuse.reuseKeys then
        d.(privateKeyFilePath := p.reuse.privatePath, publicKeyFilePath := p.reuse.publicPath)
      else d
    else if current == KeyCreationPageId then
      d.(privateKeyFilePath := PrivateKeyFilePath(p.creation),
         publicKeyFilePath := PublicKeyFilePath(p.creation))
    else if current == KeyDeploymentPageId then
      d.(hostName := HostAddress(p.deployment))
    else d
  }

  /** Which fields each page writes: the start page its four, the login page the user,
      the authentication and then the password or the private key but never both,
      the key pages only the key files, the deployment page only the host, the final
      page (and an unknown id) nothing. */
  lemma CollectWrites(d: WizardData, current: int, p: Pages)
    ensures var r := Collect(d, current, p);
      && (current == StartPageId ==>
            r.(configName := d.configName, osType := d.osType, deviceType := d.deviceType,
               hostName := d.hostName) == d)
      && (current == LoginDataPageId ==>
            r.(userName := d.userName, authType := d.authType, password := d.password,
               privateKeyFilePath := d.privateKeyFilePath) == d
            && (r.authType == ByPassword ==>
                  r.password == p.login.password && r.privateKeyFilePath == d.privateKeyFilePath)
            && (r.authType == ByKey ==>
                  r.privateKeyFilePath == p.login.keyPath && r.password == d.password))
      && (current == PreviousKeySetupCheckPageId ==>
            r.(privateKeyFilePath := d.privateKeyFilePath) == d
            && (!p.previous.keyWasSetUp ==> r == d))
      && ((current == ReuseKeysCheckPageId || current == KeyCreationPageId) ==>
            r.(privateKeyFilePath := d.privateKeyFilePath, publicKeyFilePath := d.publicKeyFilePath) == d)
      && (current == ReuseKeysCheckPageId && !p.reuse.reuseKeys ==> r == d)
      && (current == KeyDeploymentPageId ==> r.(hostName := d.hostName) == d)
      && (!(StartPageId <= current < FinalPageId) ==> r == d)
  {
  }

  /** A complete page leaves the wizard data filled in: names that are not blank,
      key files taken from choosers that accepted them or freshly created. */
  lemma CompletePageCollects(d: WizardData, current: int, p: Pages)
    requires PageComplete(current, p)
    ensures var r := Collect(d, current, p);
      && (current == StartPageId ==> r.configName != [] && r.hostName != [])
      && (current == LoginDataPageId ==>
            r.userName != []
            && (r.authType == ByKey ==> p.login.keyPathValid && r.privateKeyFilePath == p.login.keyPath))
      && (current == PreviousKeySetupCheckPageId && p.previous.keyWasSetUp ==>
            p.previous.keyPathValid && r.privateKeyFilePath == p.previous.keyPath)
      && (current == ReuseKeysCheckPageId && p.reuse.reuseKeys ==>
            p.reuse.privateValid && r.privateKeyFilePath == p.reuse.privatePath
            && p.reuse.publicValid && r.publicKeyFilePath == p.reuse.publicPath)
      && (current == KeyCreationPageId ==>
            p.creation.keysCreated && r.publicKeyFilePath == r.privateKeyFilePath + ".pub")
  {
  }

  /** How many more pages at most lie between a page and the final page. */
  function Rank(id: int): nat
  {
    if id == StartPageId then 5
    else if id == PreviousKeySetupCheckPageId then 4
    else if id == ReuseKeysCheckPageId then 3
    else if id == KeyCreationPageId then 2
    else if id == LoginDataPageId || id == KeyDeploymentPageId then 1
    else 0
  }

  /** Every page but the final one leads to a page nearer the end; the final page
      leads nowhere. */
  lemma NextPageAdvances(current: int, p: Pages)
    requires IsPage(current)
    ensures current != FinalPageId ==>
      IsPage(NextPage(current, p)) && Rank(NextPage(current, p)) < Rank(current)
    ensures current == FinalPageId ==> NextPage(current, p) == -1
    ensures Rank(current) == 0 <==> current == FinalPageId
  {
  }

  /** The wizard after the user has pressed "Next" once for every element of `ps`,
      the element holding the pages' contents at that moment; on the final page
      "Next" is "Finish" and moves nowhere. */
  function Walk(id: int, d: WizardData, ps: seq<Pages>): (int, WizardData)
    decreases |ps|
  {
    if ps == [] then (id, d)
    else
      var n := NextPage(id, ps[0]);
      var d1 := Collect(d, id, ps[0]);
      if n == -1 then (id, d1) else Walk(n, d1, ps[1..])
  }

  /** Whatever the user chooses, `Rank(id)` presses of "Next" reach the final page,
      and the walk never comes back to a page it left: the rank only goes down.
      From the start page that is at most five pages. */
  lemma {:induction false} WalkReachesFinal(id: int, d: WizardData, ps: seq<Pages>)
    requires IsPage(id)
    ensures IsPage(Walk(id, d, ps).0)
    ensures Rank(Walk(id, d, ps).0) <= Rank(id)
    ensures |ps| >= Rank(id) ==> Walk(id, d, ps).0 == FinalPageId
    ensures ps != [] && id != FinalPageId ==> Rank(Walk(id, d, ps).0) < Rank(id)
    decreases |ps|
  {
    if ps != [] {
      NextPageAdvances(id, ps[0]);
      var n := NextPage(id, ps[0]);
      if n != -1 {
        WalkReachesFinal(n, Collect(d, id, ps[0]), ps[1..]);
      }
    }
  }

  // ---------------------------------------------------------------------------
  // createDeviceConfig

  /** The configurations the wizard can add. */
  datatype DeviceConfig =
    | GenericLinuxByPassword(name: string, host: string, user: string, password: string)
    | GenericLinuxByKey(name: string, host: string, user: string, keyPath: string)
    | Hardware(name: string, os: OsType, host: string, keyPath: string)
    | EmulatorConfig(name: string, os: OsType)

  /** The configuration made from the collected data under the chosen name: generic
      Linux by password or by key, otherwise hardware for a physical device and an
      emulator for anything else. */
  function ConfigFor(d: WizardData, name: string): (c: DeviceConfig)
    ensures c.name == name
    ensures c.GenericLinuxByPassword? || c.GenericLinuxByKey? <==> d.osType == GenericLinux
    ensures c.GenericLinuxByPassword? <==> d.osType == GenericLinux && d.authType == ByPassword
    ensures c.Hardware? <==> d.osType != GenericLinux && d.deviceType == Physical
  {
    if d.osType == GenericLinux then
      if d.authType == ByPassword then GenericLinuxByPassword(name, d.hostName, d.userName, d.password)
      else GenericLinuxByKey(name, d.hostName, d.userName, d.privateKeyFilePath)
    else if d.deviceType == Physical then
      Hardware(name, d.osType, d.hostName, d.privateKeyFilePath)
    else EmulatorConfig(name, d.osType)
  }

  /** What two runs of the wizard with different stale data agree on once they stand
      on page `id` after the same choices: the start page's fields from then on, the
      login data on the generic-Linux route, the private key on the way to deployment,
      and on the final page everything the configuration is made of. */
  predicate AgreeAt(id: int, d1: WizardData, d2: WizardData)
  {
    var base := d1.configName == d2.configName && d1.hostName == d2.hostName
      && d1.osType == d2.osType && d1.deviceType == d2.deviceType;
    if id == StartPageId then true
    else if id == LoginDataPageId then base && d1.osType == GenericLinux
    else if id == FinalPageId then base && ConfigFor(d1, "") == ConfigFor(d2, "")
    else
      base && d1.osType != GenericLinux && d1.deviceType == Physical
      && (id == KeyDeploymentPageId ==> d1.privateKeyFilePath == d2.privateKeyFilePath)
  }

  lemma StepKeepsAgreement(id: int, d1: WizardData, d2: WizardData, p: Pages)
    requires IsPage(id) && id != FinalPageId && AgreeAt(id, d1, d2)
    requires id == StartPageId ==> Consistent(p.start)
    ensures AgreeAt(NextPage(id, p), Collect(d1, id, p), Collect(d2, id, p))
  {
  }

  /** The configuration the wizard adds never depends on data it did not collect on
      the way: two runs that start from different (uninitialised) wizard data and
      make the same choices on a consistent start page add the same configuration. */
  lemma {:induction false} ConfigUsesCollectedData(
      id: int, d1: WizardData, d2: WizardData, ps: seq<Pages>, name: string)
    requires IsPage(id) && AgreeAt(id, d1, d2)
    requires id == StartPageId && ps != [] ==> Consistent(ps[0].start)
    requires Walk(id, d1, ps).0 == FinalPageId
    ensures Walk(id, d2, ps).0 == FinalPageId
    ensures ConfigFor(Walk(id, d1, ps).1, name) == ConfigFor(Walk(id, d2, ps).1, name)
    decreases |ps|
  {
    if ps == [] {
      assert AgreeAt(FinalPageId, d1, d2);
    } else {
      var n := NextPage(id, ps[0]);
      if n == -1 {
        assert id == FinalPageId;
      } else {
        NextPageAdvances(id, ps[0]);
        StepKeepsAgreement(id, d1, d2, ps[0]);
        ConfigUsesCollectedData(n, Collect(d1, id, ps[0]), Collect(d2, id, ps[0]), ps[1..], name);
      }
    }
  }

  /** The name tried for the `k`-th duplicate: `"name (k)"`. */
  function Candidate(base: string, k: int): string
  {
    base + " (" + Decimal.IntText(k) + ")"
  }

  lemma CandidateInjective(base: string, j: int, k: int)
    requires Candidate(base, j) == Candidate(base, k)
    ensures j == k
  {
    var c := Candidate(base, j);
    assert Decimal.IntText(j) == c[|base| + 2..|c| - 1];
    assert Decimal.IntText(k) == c[|base| + 2..|c| - 1];
    Decimal.IntTextInjective(j, k);
  }

  /** The candidates tried before the `k`-th. */
  function CandidatesBelow(base: string, k: int): set<string>
    decreases k
  {
    if k <= 2 then {} else CandidatesBelow(base, k - 1) + {Candidate(base, k - 1)}
  }

  lemma {:induction false} CandidatesBelowSize(base: string, k: int)
    requires k >= 2
    ensures |CandidatesBelow(base, k)| == k - 2
    ensures Candidate(base, k) !in CandidatesBelow(base, k)
    ensures forall j :: 2 <= j < k ==> Candidate(base, j) in CandidatesBelow(base, k)
    decreases k
  {
    if k > 2 {
      CandidatesBelowSize(base, k - 1);
      if Candidate(base, k) in CandidatesBelow(base, k) {
        CandidatesBelowKnown(base, k - 1, k);
      }
    }
  }

  lemma {:induction false} CandidatesBelowKnown(base: string, k: int, m: int)
    requires 2 <= k < m
    ensures Candidate(base, m) !in CandidatesBelow(base, k + 1)
    decreases k
  {
    if Candidate(base, k) == Candidate(base, m) {
      CandidateInjective(base, k, m);
    }
    if k > 2 {
      CandidatesBelowKnown(base, k - 1, m);
    }
  }

  /** The name `createDeviceConfig` settles on, given the names already in use: the
      configuration name itself if it is free, otherwise the first free `"name (k)"`
      counting from 2. */
  ghost predicate FirstFree(names: set<string>, base: string, name: string)
  {
    if base !in names then name == base
    else
      exists k :: k >= 2 && name == Candidate(base, k) && name !in names
        && forall j :: 2 <= j < k ==> Candidate(base, j) in names
  }

  /** One more name of the sequence found taken: the set of taken candidates grows,
      and stays within the names in use. */
  lemma TriedGrows(names: set<string>, base: string, k: int, tried: set<string>)
    requires k >= 2 && tried == CandidatesBelow(base, k) && tried <= names && Candidate(base, k) in names
    ensures CandidatesBelow(base, k + 1) == tried + {Candidate(base, k)} <= names
    ensures |tried| < |tried + {Candidate(base, k)}| <= |names|
  {
    CandidatesBelowSize(base, k);
    SubsetSize(tried + {Candidate(base, k)}, names);
  }

  /** The first candidate not in use, after all those before it were. */
  lemma FoundFirstFree(names: set<string>, base: string, k: int, name: string)
    requires k >= 2 && name == Candidate(base, k) && name !in names && base in names
    requires CandidatesBelow(base, k) <= names
    ensures FirstFree(names, base, name)
  {
    CandidatesBelowSize(base, k);
    assert forall j :: 2 <= j < k ==> Candidate(base, j) in names;
  }

  /** There is only one such name, and it is not in use. */
  lemma FirstFreeUnique(names: set<string>, base: string, n1: string, n2: string)
    requires FirstFree(names, base, n1) && FirstFree(names, base, n2)
    ensures n1 == n2 && n1 !in names
  {
    if base in names {
      var k1 :| k1 >= 2 && n1 == Candidate(base, k1) && n1 !in names
        && forall j :: 2 <= j < k1 ==> Candidate(base, j) in names;
      var k2 :| k2 >= 2 && n2 == Candidate(base, k2) && n2 !in names
        && forall j :: 2 <= j < k2 ==> Candidate(base, j) in names;
    }
  }

  /** The device configurations known so far (only their list is modelled). */
  class DeviceConfigurations {
    var configs: seq<DeviceConfig>

    constructor (cs: seq<DeviceConfig>)
      ensures configs == cs
    {
      configs := cs;
    }

    function Names(): set<string>
      reads this
    {
      set c | c in configs :: c.name
    }

    /** `hasConfig`. */
    predicate HasConfig(name: string)
      reads this
    {
      name in Names()
    }

    /** The `add...Configuration` calls: the new configuration joins the list. */
    method Add(c: DeviceConfig)
      modifies this
      ensures configs == old(configs) + [c]
    {
      configs := configs + [c];
    }
  }

  class DeviceConfigWizard {
    var data: WizardData
    const devConfigs: DeviceConfigurations

    /** The members of the collected data nobody has set yet hold whatever `initial`
        says. */
    constructor (configs: DeviceConfigurations, initial: WizardData)
      ensures data == initial && devConfigs == configs
    {
      data := initial;
      devConfigs := configs;
    }

    /** `nextId()`: the page after `current`, collecting that page's answers into
        the wizard data on the way. */
    method NextId(current: int, p: Pages) returns (next: int)
      modifies this
      ensures next == NextPage(current, p)
      ensures data == Collect(old(data), current, p)
    {
      if current == StartPageId {
        data := data.(configName := ConfigName(p.start), osType := p.start.os,
                      deviceType := p.start.device, hostName := HostName(p.start));
        if data.deviceType == Emulator {
          next := FinalPageId;
        } else if data.osType == GenericLinux {
          next := LoginDataPageId;
        } else {
          next := PreviousKeySetupCheckPageId;
        }
      } else if current == LoginDataPageId {
        data := data.(userName := Trimmed(p.login.userText), authType := p.login.auth);
        if data.authType == ByPassword {
          data := data.(password := p.login.password);
        } else {
          data := data.(privateKeyFilePath := p.login.keyPath);
        }
        next := FinalPageId;
      } else if current == PreviousKeySetupCheckPageId {
        if p.previous.keyWasSetUp {
          data := data.(privateKeyFilePath := p.previous.keyPath);
          next := FinalPageId;
        } else {
          next := ReuseKeysCheckPageId;
        }
      } else if current == ReuseKeysCheckPageId {
        if p.reuse.reuseKeys {
          data := data.(privateKeyFilePath := p.reuse.privatePath);
          data := data.(publicKeyFilePath := p.reuse.publicPath);
          next := KeyDeploymentPageId;
        } else {
          next := KeyCreationPageId;
        }
      } else if current == KeyCreationPageId {
        data := data.(privateKeyFilePath := PrivateKeyFilePath(p.creation));
        data := data.(publicKeyFilePath := PublicKeyFilePath(p.creation));
        next := KeyDeploymentPageId;
      } else if current == KeyDeploymentPageId {
        data := data.(hostName := HostAddress(p.deployment));
        next := FinalPageId;
      } else {
        next := -1;
      }
    }

    /** The unique-name loop of `createDeviceConfig`: the first free name. */
    method PickName() returns (name: string)
      ensures FirstFree(devConfigs.Names(), data.configName, name)
      ensures !devConfigs.HasConfig(name)
    {
      var base := data.configName;
      name := base;
      if devConfigs.HasConfig(name) {
        var suffix := 2;
        ghost var tried: set<string> := {};
        name := Candidate(base, suffix);
        suffix := suffix + 1;
        while devConfigs.HasConfig(name)
          invariant suffix >= 3 && name == Candidate(base, suffix - 1)
          invariant tried == CandidatesBelow(base, suffix - 1)
          invariant tried <= devConfigs.Names()
          decreases |devConfigs.Names()| - |tried|
        {
          TriedGrows(devConfigs.Names(), base, suffix - 1, tried);
          tried := tried + {name};
          name := Candidate(base, suffix);
          suffix := suffix + 1;
        }
        FoundFirstFree(devConfigs.Names(), base, suffix - 1, name);
      }
    }

    /** `createDeviceConfig()`: adds the configuration made from the collected data
        under the first free name. */
    method CreateDeviceConfig()
      modifies devConfigs
      ensures |devConfigs.configs| == |old(devConfigs.configs)| + 1
      ensures devConfigs.configs[..|old(devConfigs.configs)|] == old(devConfigs.configs)
      ensures var c := devConfigs.configs[|old(devConfigs.configs)|];
        FirstFree(old(devConfigs.Names()), data.configName, c.name) && c == ConfigFor(data, c.name)
    {
      var name := PickName();
      if data.osType == GenericLinux {
        if data.authType == ByPassword {
          devConfigs.Add(GenericLinuxByPassword(name, data.hostName, data.userName, data.password));
        } else {
          devConfigs.Add(GenericLinuxByKey(name, data.hostName, data.userName, data.privateKeyFilePath));
        }
      } else if data.deviceType == Physical {
        devConfigs.Add(Hardware(name, data.osType, data.hostName, data.privateKeyFilePath));
      } else {
        devConfigs.Add(EmulatorConfig(name, data.osType));
      }
    }
  }

  lemma {:induction false} SubsetSize<T>(a: set<T>, b: set<T>)
    requires a <= b
    ensures |a| <= |b|
    decreases |a|
  {
    if a != {} {
      var x :| x in a;
      SubsetSize(a - {x}, b - {x});
    }
  }
}
