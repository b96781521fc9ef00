/** The configuration file's schema and its default value (src/config/mod.rs). */
module Config {
  import Paths

  /** How images are drawn in the terminal; exactly these three modes exist. */
  datatype ImageMode = Protocol | Ascii | Unknown

  datatype DockerConfig = DockerConfig(enabled: bool, usePodman: bool, image: string)

  datatype FrpConfig = FrpConfig(enabled: bool, clientPath: string, configPath: string)

  datatype GeneralConfig = GeneralConfig(logLevel: string, autoRestart: bool)

  datatype AppearanceConfig = AppearanceConfig(imageRenderMode: ImageMode)

  datatype MslConfig = MslConfig(
    docker: DockerConfig,
    frp: FrpConfig,
    msl: GeneralConfig,
    appearance: AppearanceConfig)

  /**
    `MslConfig::default()`: containers and the reverse proxy are switched off,
    the proxy's configuration lives in the MSL configuration directory, the
    log level is "info", and the image mode is left to be probed.
  */
  function Default(): (c: MslConfig)
    ensures !c.docker.enabled && !c.docker.usePodman && c.docker.image == "openjdk:21"
    ensures !c.frp.enabled && c.frp.clientPath == "./frpc"
    ensures c.frp.configPath == "configs/MSL/frpc.ini"
    ensures c.msl.logLevel == "info" && !c.msl.autoRestart
    ensures c.appearance.imageRenderMode == Unknown
  {
    MslConfig(
      DockerConfig(false, false, "openjdk:21"),
      FrpConfig(false, "./frpc", "configs/MSL/frpc.ini"),
      GeneralConfig("info", false),
      AppearanceConfig(Unknown))
  }

  /** The default proxy configuration lies inside the MSL configuration directory. */
  lemma DefaultProxyInMslConf()
    ensures Paths.Under(Default().frp.configPath, Paths.DIR_MSL_CONF)
  {
    var p := Default().frp.configPath;
    assert p[..|Paths.DIR_MSL_CONF + "/"|] == Paths.DIR_MSL_CONF + "/";
  }
}
